/** What the queries of the repository read from tables that represent a store
  (crates/core-storage-sqlite/src/lib.rs). */
module Queries {
  import opened Wrappers
  import opened Domain
  import opened Database
  import opened KeyOrder
  import opened Store
  import opened Refinement
  import opened Grouping

  /** A query result: each key once, in the order of the primary key. */
  ghost predicate OrderedScan(keys: set<RowKey>, scan: seq<RowKey>) {
    && (forall k :: k in scan <==> k in keys)
    && (forall i, j | 0 <= i < j < |scan| :: scan[i] != scan[j])
    && (forall i, j | 0 <= i < j < |scan| :: KeyLeq(scan[i], scan[j]))
  }

  /** SELECT ... ORDER BY the primary key */
  method Scan(keys: set<RowKey>) returns (scan: seq<RowKey>)
    ensures OrderedScan(keys, scan)
  {
    scan := [];
    var rest := keys;
    while rest != {}
      invariant rest <= keys
      invariant OrderedScan(keys - rest, scan)
      invariant forall i, k | 0 <= i < |scan| && k in rest :: KeyLeq(scan[i], k)
      decreases |rest|
    {
      FirstKey(rest);
      var next :| next in rest && forall k | k in rest :: KeyLeq(next, k);
      scan, rest := scan + [next], rest - {next};
    }
    assert keys - {} == keys;
  }

  /** So it has the rows of one control by position. */
  lemma {:induction false} PositionsAscend(keys: set<RowKey>, scan: seq<RowKey>)
    requires OrderedScan(keys, scan)
    ensures forall i, j | 0 <= i < j < |scan| && scan[i].identity == scan[j].identity ::
      scan[i].position < scan[j].position
  {
    forall i, j | 0 <= i < j < |scan| && scan[i].identity == scan[j].identity
      ensures scan[i].position < scan[j].position
    {
      assert scan[i] != scan[j] && KeyLeq(scan[i], scan[j]);
    }
  }

  function DecodeRow(lib: Library, key: RowKey, value: RowValue): Result<Row, SqlError> {
    var id :- FromDomain(lib.ParseProfileId(key.identity.profile));
    var control :- DecodeControl(key.identity.page, key.identity.kind, key.identity.index, key.identity.operation);
    var action :- DecodeAction(lib, value);
    Success(Row(Binding(id, control), action))
  }

  /** `query_map` and `collect`: the first row that does not decode fails the query. */
  function DecodeRows(lib: Library, rows: map<RowKey, RowValue>, scan: seq<RowKey>,
                      k: nat): (decoded: Result<seq<Row>, SqlError>)
    requires k <= |scan| && forall i | 0 <= i < |scan| :: scan[i] in rows
    ensures decoded.Success? ==> |decoded.value| == k
  {
    if k == 0 then Success([]) else
      var before :- DecodeRows(lib, rows, scan, k - 1);
      var row :- DecodeRow(lib, scan[k - 1], rows[scan[k - 1]]);
      Success(before + [row])
  }

  /** The row is what the store holds at the key. */
  ghost predicate ReadsRow(lib: Library, key: RowKey, row: Row, bindings: map<Binding, seq<Action>>) {
    && row.binding in bindings && key == KeyOf(lib, row.binding, key.position)
    && 0 <= key.position < |bindings[row.binding]|
    && row.action == bindings[row.binding][key.position]
  }

  /** The row decodes, to what the store holds at its key. */
  ghost predicate Decodes(lib: Library, key: RowKey, value: RowValue, bindings: map<Binding, seq<Action>>) {
    DecodeRow(lib, key, value).Success? && ReadsRow(lib, key, DecodeRow(lib, key, value).value, bindings)
  }

  /** Every row of the tables decodes, to the binding and action it was written for. */
  lemma {:induction false} RowDecodes(lib: Library, rows: map<RowKey, RowValue>, bindings: map<Binding, seq<Action>>,
                                      key: RowKey)
    requires lib.Lawful() && RepresentsBindings(lib, rows, bindings) && key in rows
    requires forall b | b in bindings :: lib.AllSafe(bindings[b])
    ensures Decodes(lib, key, rows[key], bindings)
  {
    var b :| b in bindings && key == KeyOf(lib, b, key.position);
    assert lib.parseUuid(lib.printUuid(b.profile)) == Some(b.profile);
    ControlCodecIff(lib, b.profile, key.identity, b.control);
    ActionCodecIff(lib, bindings[b][key.position]);
  }

  /** Row by row, what `scan` reads is what the store holds. */
  ghost predicate Reads(lib: Library, scan: seq<RowKey>, rows: seq<Row>, bindings: map<Binding, seq<Action>>) {
    && |rows| <= |scan|
    && forall i | 0 <= i < |rows| :: ReadsRow(lib, scan[i], rows[i], bindings)
  }

  lemma {:induction false} RowsDecode(lib: Library, rows: map<RowKey, RowValue>, bindings: map<Binding, seq<Action>>,
                                      scan: seq<RowKey>, k: nat)
    requires k <= |scan|
    requires forall i | 0 <= i < |scan| :: scan[i] in rows && Decodes(lib, scan[i], rows[scan[i]], bindings)
    ensures DecodeRows(lib, rows, scan, k).Success?
    ensures Reads(lib, scan, DecodeRows(lib, rows, scan, k).value, bindings)
  {
    if k > 0 {
      RowsDecode(lib, rows, bindings, scan, k - 1);
    }
  }

  /** A scan of tables that represent a store reads what the store holds. */
  lemma {:induction false} ScanReads(lib: Library, db: Database, s: Store, scan: seq<RowKey>)
    requires Represents(lib, db, s) && forall key | key in scan :: key in db.assignments
    ensures forall i | 0 <= i < |scan| :: scan[i] in db.assignments
    ensures DecodeRows(lib, db.assignments, scan, |scan|).Success?
    ensures Reads(lib, scan, DecodeRows(lib, db.assignments, scan, |scan|).value, s.bindings)
  {
    forall i | 0 <= i < |scan|
      ensures scan[i] in db.assignments && Decodes(lib, scan[i], db.assignments[scan[i]], s.bindings)
    {
      assert scan[i] in scan;
      RowDecodes(lib, db.assignments, s.bindings, scan[i]);
    }
    RowsDecode(lib, db.assignments, s.bindings, scan, |scan|);
  }

  /** The rows of `scan` hold the actions of `b` in order and from the start. */
  ghost predicate Holds(lib: Library, scan: seq<RowKey>, rows: seq<Row>, bound: seq<Action>, b: Binding)
  {
    && |rows| == |scan|
    && (forall i, j | 0 <= i < j < |scan| && scan[i].identity == scan[j].identity ::
         scan[i].position < scan[j].position)
    && (forall i | 0 <= i < |scan| :: scan[i] == KeyOf(lib, rows[i].binding, scan[i].position))
    && (forall i | 0 <= i < |scan| && rows[i].binding == b ::
          0 <= scan[i].position < |bound| && rows[i].action == bound[scan[i].position])
    && (forall p | 0 <= p < |bound| :: KeyOf(lib, b, p) in scan)
  }

  /** A scan meets the positions of a control in order, 0 first. */
  lemma {:induction false} ScanMeetsInOrder(lib: Library, scan: seq<RowKey>, rows: seq<Row>, bound: seq<Action>,
                                            b: Binding, k: nat)
    requires lib.Lawful() && Holds(lib, scan, rows, bound, b) && k <= |scan|
    ensures var met := |ActionsOf(rows, b, k)|;
      && met <= |bound| && ActionsOf(rows, b, k) == bound[..met]
      && (forall i | 0 <= i < |scan| && rows[i].binding == b :: i < k <==> scan[i].position < met)
  {
    if k > 0 {
      ScanMeetsInOrder(lib, scan, rows, bound, b, k - 1);
      var met := |ActionsOf(rows, b, k - 1)|;
      if rows[k - 1].binding == b {
        NextIsMet(lib, scan, rows, bound, b, k, met);
        assert bound[..met] + [bound[met]] == bound[..met + 1];
      }
    }
  }

  /** The row after the first `met` of a control is at position `met`. */
  lemma {:induction false} NextIsMet(lib: Library, scan: seq<RowKey>, rows: seq<Row>, bound: seq<Action>, b: Binding,
                                     k: nat, met: nat)
    requires lib.Lawful() && Holds(lib, scan, rows, bound, b) && 0 < k <= |scan| && rows[k - 1].binding == b
    requires forall i | 0 <= i < |scan| && rows[i].binding == b :: i < k - 1 <==> scan[i].position < met
    ensures scan[k - 1].position == met < |bound| && rows[k - 1].action == bound[met]
    ensures forall i | 0 <= i < |scan| && rows[i].binding == b :: i < k <==> scan[i].position < met + 1
  {
    var i :| 0 <= i < |scan| && scan[i] == KeyOf(lib, b, met);
    SameBinding(lib, rows[i].binding, b, scan[i].position);
    assert forall j | 0 <= j < |scan| && rows[j].binding == b :: scan[j].identity == scan[k - 1].identity;
  }

  lemma {:induction false} SameBinding(lib: Library, b: Binding, c: Binding, p: int)
    requires lib.Lawful() && KeyOf(lib, b, p).identity == KeyOf(lib, c, p).identity
    ensures b == c
  {
    IdentityInjective(lib, b.profile, b.control, c.profile, c.control);
  }

  /** The whole scan meets all of them. */
  lemma {:induction false} ScanHoldsActions(lib: Library, scan: seq<RowKey>, rows: seq<Row>, bound: seq<Action>,
                                            b: Binding)
    requires lib.Lawful() && Holds(lib, scan, rows, bound, b)
    ensures ActionsOf(rows, b, |rows|) == bound
  {
    ScanMeetsInOrder(lib, scan, rows, bound, b, |scan|);
    var met := |ActionsOf(rows, b, |rows|)|;
    if met < |bound| {
      var i :| 0 <= i < |scan| && scan[i] == KeyOf(lib, b, met);
      SameBinding(lib, rows[i].binding, b, met);
    }
    assert bound[..|bound|] == bound;
  }

  /** The list holds each binding of the store once, with its actions in order. */
  ghost predicate ListsBindings(assignments: seq<Assignment>, bindings: map<Binding, seq<Action>>) {
    && (forall i | 0 <= i < |assignments| ::
          var b := Binding(assignments[i].profileId, assignments[i].control);
          b in bindings && assignments[i].actions == bindings[b])
    && (forall i, j | 0 <= i < j < |assignments| ::
          Binding(assignments[i].profileId, assignments[i].control)
          != Binding(assignments[j].profileId, assignments[j].control))
    && (forall b | b in bindings :: Assignment(b.profile, b.control, bindings[b]) in assignments)
  }

  /** A bound control has exactly one entry in the list, and the others have none. */
  lemma {:induction false} OneEntryEach(assignments: seq<Assignment>, bindings: map<Binding, seq<Action>>, b: Binding)
    requires ListsBindings(assignments, bindings)
    ensures var entries :=
      set i | 0 <= i < |assignments| && Binding(assignments[i].profileId, assignments[i].control) == b;
      && |entries| == (if b in bindings then 1 else 0)
      && forall i | i in entries :: assignments[i].actions == bindings[b]
  {
    var entries := set i | 0 <= i < |assignments| && Binding(assignments[i].profileId, assignments[i].control) == b;
    if b in bindings {
      var i :| 0 <= i < |assignments| && assignments[i] == Assignment(b.profile, b.control, bindings[b]);
      assert entries == {i};
    } else {
      assert entries == {};
    }
  }

  /** Grouping a scan of the whole table gives the bindings of the store back. */
  lemma {:induction false} GroupedScanLists(lib: Library, db: Database, s: Store, scan: seq<RowKey>,
                                            assignments: seq<Assignment>)
    requires Represents(lib, db, s) && OrderedScan(db.assignments.Keys, scan)
    requires forall i | 0 <= i < |scan| :: scan[i] in db.assignments
    requires DecodeRows(lib, db.assignments, scan, |scan|).Success?
    requires Groups(assignments, DecodeRows(lib, db.assignments, scan, |scan|).value, |scan|)
    ensures ListsBindings(assignments, s.bindings) && InKeyOrder(lib, assignments)
  {
    ScanReads(lib, db, s, scan);
    PositionsAscend(db.assignments.Keys, scan);
    var rows := DecodeRows(lib, db.assignments, scan, |scan|).value;
    forall b, p | b in s.bindings && 0 <= p < |s.bindings[b]|
      ensures KeyOf(lib, b, p) in scan
    {
      assert KeyOf(lib, b, p) in db.assignments;
    }
    GroupedRowsList(lib, scan, rows, s.bindings, assignments);
    GroupsInOrder(lib, scan, rows, s.bindings, assignments);
  }

  function IdentityOf(lib: Library, a: Assignment): Identity {
    EncodeIdentity(lib, a.profileId, a.control)
  }

  /** The entries are ordered by the columns that name their controls. */
  ghost predicate InKeyOrder(lib: Library, assignments: seq<Assignment>) {
    forall i, j | 0 <= i < j < |assignments| ::
      IdentityLeq(IdentityOf(lib, assignments[i]), IdentityOf(lib, assignments[j]))
  }

  /** Grouping keeps the order of the rows: a control comes where its first row does. */
  lemma {:induction false} GroupsInOrder(lib: Library, scan: seq<RowKey>, rows: seq<Row>,
                                         bindings: map<Binding, seq<Action>>, assignments: seq<Assignment>)
    requires |rows| == |scan| && Reads(lib, scan, rows, bindings) && Groups(assignments, rows, |rows|)
    requires forall i, j | 0 <= i < j < |scan| :: KeyLeq(scan[i], scan[j])
    ensures InKeyOrder(lib, assignments)
  {
    forall i, j | 0 <= i < j < |assignments|
      ensures IdentityLeq(IdentityOf(lib, assignments[i]), IdentityOf(lib, assignments[j]))
    {
      FirstAppearanceOrder(rows, |rows|, i, j);
      var found := FirstAppearances(rows, |rows|);
      var k, l := FirstIndex(rows, found[i]), FirstIndex(rows, found[j]);
      assert ReadsRow(lib, scan[k], rows[k], bindings) && ReadsRow(lib, scan[l], rows[l], bindings);
      IdentityOrder(scan[k].identity, scan[k].identity, scan[k].identity);
      assert KeyLeq(scan[k], scan[l]);
    }
  }

  lemma {:induction false} GroupedRowsList(lib: Library, scan: seq<RowKey>, rows: seq<Row>,
                                           bindings: map<Binding, seq<Action>>, assignments: seq<Assignment>)
    requires lib.Lawful() && |rows| == |scan| && Reads(lib, scan, rows, bindings) && Groups(assignments, rows, |rows|)
    requires forall i, j | 0 <= i < j < |scan| && scan[i].identity == scan[j].identity ::
      scan[i].position < scan[j].position
    requires forall b, p | b in bindings && 0 <= p < |bindings[b]| :: KeyOf(lib, b, p) in scan
    requires forall b | b in bindings :: bindings[b] != []
    ensures ListsBindings(assignments, bindings)
  {
    var found := FirstAppearances(rows, |rows|);
    FirstAppearancesAre(rows, |rows|);
    forall b | b in bindings
      ensures ActionsOf(rows, b, |rows|) == bindings[b] && b in found
    {
      GroupIsWhole(lib, scan, rows, bindings, b);
    }
    forall b | b in found
      ensures b in bindings
    {
      var i :| 0 <= i < |rows| && rows[i].binding == b;
      assert ReadsRow(lib, scan[i], rows[i], bindings);
    }
    GroupsList(rows, found, bindings, assignments);
  }

  lemma {:induction false} GroupIsWhole(lib: Library, scan: seq<RowKey>, rows: seq<Row>,
                                        bindings: map<Binding, seq<Action>>, b: Binding)
    requires lib.Lawful() && |rows| == |scan| && Reads(lib, scan, rows, bindings)
    requires forall i, j | 0 <= i < j < |scan| && scan[i].identity == scan[j].identity ::
      scan[i].position < scan[j].position
    requires b in bindings && bindings[b] != [] && forall p | 0 <= p < |bindings[b]| :: KeyOf(lib, b, p) in scan
    ensures ActionsOf(rows, b, |rows|) == bindings[b] && b in FirstAppearances(rows, |rows|)
  {
    assert forall i | 0 <= i < |scan| :: ReadsRow(lib, scan[i], rows[i], bindings);
    ScanHoldsActions(lib, scan, rows, bindings[b], b);
    NoActionsBefore(rows, b, |rows|);
  }

  lemma {:induction false} GroupsList(rows: seq<Row>, found: seq<Binding>, bindings: map<Binding, seq<Action>>,
                                      assignments: seq<Assignment>)
    requires Groups(assignments, rows, |rows|) && found == FirstAppearances(rows, |rows|)
    requires forall i, j | 0 <= i < j < |found| :: found[i] != found[j]
    requires forall b :: b in found <==> b in bindings
    requires forall b | b in bindings :: ActionsOf(rows, b, |rows|) == bindings[b]
    ensures ListsBindings(assignments, bindings)
  {
    forall b | b in bindings
      ensures Assignment(b.profile, b.control, bindings[b]) in assignments
    {
      var i :| 0 <= i < |found| && found[i] == b;
      assert assignments[i] == Assignment(b.profile, b.control, bindings[b]);
    }
  }

  /** The rows of one control. */
  function KeysOf(db: Database, identity: Identity): set<RowKey> {
    set k | k in db.assignments && k.identity == identity
  }

  /** The rows of one control are read without their key. */
  function DecodeActions(lib: Library, rows: map<RowKey, RowValue>, scan: seq<RowKey>,
                         k: nat): Result<seq<Action>, SqlError>
    requires k <= |scan| && forall i | 0 <= i < |scan| :: scan[i] in rows
  {
    if k == 0 then Success([]) else
      var before :- DecodeActions(lib, rows, scan, k - 1);
      var action :- DecodeAction(lib, rows[scan[k - 1]]);
      Success(before + [action])
  }

  lemma {:induction false} ActionsOfRows(lib: Library, rows: map<RowKey, RowValue>, scan: seq<RowKey>, b: Binding,
                                         k: nat)
    requires k <= |scan| && forall i | 0 <= i < |scan| :: scan[i] in rows
    requires DecodeRows(lib, rows, scan, k).Success?
    requires forall i | 0 <= i < k :: DecodeRows(lib, rows, scan, k).value[i].binding == b
    ensures DecodeActions(lib, rows, scan, k) == Success(ActionsOf(DecodeRows(lib, rows, scan, k).value, b, k))
  {
    if k > 0 {
      var before, decoded := DecodeRows(lib, rows, scan, k - 1).value, DecodeRows(lib, rows, scan, k).value;
      assert forall i | 0 <= i < k - 1 :: before[i] == decoded[i];
      ActionsOfRows(lib, rows, scan, b, k - 1);
      ActionsOfPrefix(before, decoded, b, k - 1);
    }
  }

  lemma {:induction false} ActionsOfPrefix(before: seq<Row>, rows: seq<Row>, b: Binding, k: nat)
    requires k <= |before| && k <= |rows| && forall i | 0 <= i < k :: before[i] == rows[i]
    ensures ActionsOf(before, b, k) == ActionsOf(rows, b, k)
  {
    if k > 0 {
      ActionsOfPrefix(before, rows, b, k - 1);
    }
  }

  /** Selecting the rows of one control gives its actions, or nothing if it is not bound. */
  lemma {:induction false} SelectedActions(lib: Library, db: Database, s: Store, b: Binding, scan: seq<RowKey>)
    requires Represents(lib, db, s)
    requires OrderedScan(KeysOf(db, EncodeIdentity(lib, b.profile, b.control)), scan)
    ensures forall i | 0 <= i < |scan| :: scan[i] in db.assignments
    ensures DecodeActions(lib, db.assignments, scan, |scan|) == Success(if b in s.bindings then s.bindings[b] else [])
  {
    ScanReads(lib, db, s, scan);
    PositionsAscend(KeysOf(db, EncodeIdentity(lib, b.profile, b.control)), scan);
    var rows := DecodeRows(lib, db.assignments, scan, |scan|).value;
    forall i | 0 <= i < |scan|
      ensures ReadsRow(lib, scan[i], rows[i], s.bindings) && rows[i].binding == b
    {
      assert scan[i] in scan;
      SameBinding(lib, rows[i].binding, b, scan[i].position);
    }
    ActionsOfRows(lib, db.assignments, scan, b, |scan|);
    var bound := if b in s.bindings then s.bindings[b] else [];
    forall p | 0 <= p < |bound|
      ensures KeyOf(lib, b, p) in scan
    {
      assert KeyOf(lib, b, p) in db.assignments;
    }
    ScanHoldsActions(lib, scan, rows, bound, b);
  }

  // ------------------------------------------------------------------------
  // Profiles
  // ------------------------------------------------------------------------

  /** ORDER BY created_at, name */
  predicate RowLeq(a: ProfileRow, b: ProfileRow) {
    a.createdAt < b.createdAt || (a.createdAt == b.createdAt && TextLeq(a.name, b.name))
  }

  lemma {:induction false} RowOrder(a: ProfileRow, b: ProfileRow, c: ProfileRow)
    ensures RowLeq(a, b) || RowLeq(b, a)
    ensures RowLeq(a, b) && RowLeq(b, c) ==> RowLeq(a, c)
  {
    TextTotal(a.name, b.name);
    if TextLeq(a.name, b.name) && TextLeq(b.name, c.name) {
      TextTransitive(a.name, b.name, c.name);
    }
  }

  /** Some row comes first. */
  lemma {:induction false} FirstRow(rows: map<string, ProfileRow>, keys: set<string>)
    requires keys != {} && keys <= rows.Keys
    ensures exists next | next in keys :: forall t | t in keys :: RowLeq(rows[next], rows[t])
    decreases |keys|
  {
    var some :| some in keys;
    RowOrder(rows[some], rows[some], rows[some]);
    if keys != {some} {
      FirstRow(rows, keys - {some});
      var next :| next in keys - {some} && forall t | t in keys - {some} :: RowLeq(rows[next], rows[t]);
      RowOrder(rows[some], rows[next], rows[next]);
      var least := if RowLeq(rows[some], rows[next]) then some else next;
      forall t | t in keys
        ensures RowLeq(rows[least], rows[t])
      {
        RowOrder(rows[some], rows[next], rows[t]);
        RowOrder(rows[next], rows[some], rows[t]);
      }
    }
  }

  /** Each row once, in this order. */
  ghost predicate OrderedProfiles(rows: map<string, ProfileRow>, keys: set<string>, scan: seq<string>)
    requires keys <= rows.Keys
  {
    && (forall t :: t in scan <==> t in keys)
    && (forall i, j | 0 <= i < j < |scan| :: scan[i] != scan[j])
    && (forall i, j | 0 <= i < j < |scan| :: scan[i] in rows && scan[j] in rows && RowLeq(rows[scan[i]], rows[scan[j]]))
  }

  /** SELECT ... FROM profiles ORDER BY created_at, name */
  method ScanProfiles(rows: map<string, ProfileRow>) returns (scan: seq<string>)
    ensures OrderedProfiles(rows, rows.Keys, scan)
  {
    scan := [];
    var rest := rows.Keys;
    while rest != {}
      invariant rest <= rows.Keys && OrderedProfiles(rows, rows.Keys - rest, scan)
      invariant forall i, t | 0 <= i < |scan| && t in rest :: scan[i] in rows && RowLeq(rows[scan[i]], rows[t])
      decreases |rest|
    {
      FirstRow(rows, rest);
      var next :| next in rest && forall t | t in rest :: RowLeq(rows[next], rows[t]);
      scan, rest := scan + [next], rest - {next};
    }
    assert rows.Keys - {} == rows.Keys;
  }

  ghost predicate ListedBefore(s: Store, p: ProfileId, q: ProfileId) {
    && p in s.names && p in s.created && q in s.names && q in s.created
    && RowLeq(RowOf(s, p), RowOf(s, q))
  }

  /** The list holds each profile of the store once, by age and then by name. */
  ghost predicate ListsProfiles(profiles: seq<Profile>, s: Store) {
    && (forall i, j | 0 <= i < j < |profiles| :: ListedBefore(s, profiles[i].id, profiles[j].id))
    && (forall p | p in profiles :: p.id in s.names && p == Profile(p.id, s.names[p.id], s.active == Some(p.id)))
    && (forall i, j | 0 <= i < j < |profiles| :: profiles[i].id != profiles[j].id)
    && (forall id | id in s.names :: Profile(id, s.names[id], s.active == Some(id)) in profiles)
  }

  function DecodeProfile(lib: Library, id: string, row: ProfileRow): Result<Profile, SqlError> {
    var parsed :- FromDomain(lib.ParseProfileId(id));
    Success(Profile(parsed, row.name, row.isActive == 1))
  }

  /** The one row of a query that may find none. */
  function DecodeFound(lib: Library, id: string, row: ProfileRow): Result<Option<Profile>, SqlError> {
    var profile :- DecodeProfile(lib, id, row);
    Success(Some(profile))
  }

  function DecodeProfiles(lib: Library, rows: map<string, ProfileRow>, scan: seq<string>,
                          k: nat): Result<seq<Profile>, SqlError>
    requires k <= |scan| && forall i | 0 <= i < |scan| :: scan[i] in rows
  {
    if k == 0 then Success([]) else
      var before :- DecodeProfiles(lib, rows, scan, k - 1);
      var profile :- DecodeProfile(lib, scan[k - 1], rows[scan[k - 1]]);
      Success(before + [profile])
  }

  /** The row of a profile decodes to it. */
  lemma {:induction false} ProfileDecodes(lib: Library, profiles: map<string, ProfileRow>, s: Store, t: string)
    requires lib.Lawful() && RepresentsProfiles(lib, profiles, s) && t in profiles
    ensures exists id ::
      (id in s.names && lib.printUuid(id) == t
       && DecodeProfile(lib, t, profiles[t]) == Success(Profile(id, s.names[id], s.active == Some(id))))
  {
    var id :| id in s.names && lib.printUuid(id) == t;
    assert lib.parseUuid(lib.printUuid(id)) == Some(id);
  }

  /** Row by row, what `scan` reads is a profile of the store. */
  lemma {:induction false} ProfilesDecode(lib: Library, profiles: map<string, ProfileRow>, s: Store, scan: seq<string>,
                                          k: nat)
    requires lib.Lawful() && RepresentsProfiles(lib, profiles, s)
    requires k <= |scan| && forall i | 0 <= i < |scan| :: scan[i] in profiles
    ensures var decoded := DecodeProfiles(lib, profiles, scan, k);
      && decoded.Success? && |decoded.value| == k
      && forall i | 0 <= i < k :: var p := decoded.value[i];
           p.id in s.names && lib.printUuid(p.id) == scan[i]
             && p == Profile(p.id, s.names[p.id], s.active == Some(p.id))
  {
    if k > 0 {
      ProfilesDecode(lib, profiles, s, scan, k - 1);
      ProfileDecodes(lib, profiles, s, scan[k - 1]);
    }
  }

  /** A scan of all rows lists all profiles. */
  lemma {:induction false} ScanListsProfiles(lib: Library, profiles: map<string, ProfileRow>, s: Store,
                                             scan: seq<string>)
    requires lib.Lawful() && RepresentsProfiles(lib, profiles, s)
    requires OrderedProfiles(profiles, profiles.Keys, scan)
    ensures forall i | 0 <= i < |scan| :: scan[i] in profiles
    ensures DecodeProfiles(lib, profiles, scan, |scan|).Success?
    ensures ListsProfiles(DecodeProfiles(lib, profiles, scan, |scan|).value, s)
  {
    assert forall i | 0 <= i < |scan| :: scan[i] in scan;
    ProfilesDecode(lib, profiles, s, scan, |scan|);
    var decoded := DecodeProfiles(lib, profiles, scan, |scan|).value;
    forall i, j | 0 <= i < j < |decoded|
      ensures ListedBefore(s, decoded[i].id, decoded[j].id)
    {
      assert profiles[scan[i]] == RowOf(s, decoded[i].id) && profiles[scan[j]] == RowOf(s, decoded[j].id);
    }
    forall id | id in s.names
      ensures Profile(id, s.names[id], s.active == Some(id)) in decoded
    {
      var i :| 0 <= i < |scan| && scan[i] == lib.printUuid(id);
      PrintInjective(lib, id, decoded[i].id);
    }
  }

  /** A list of all profiles passes the check for exactly one active profile if and
    only if the store has an active profile. */
  lemma {:induction false} OneActiveIff(profiles: seq<Profile>, s: Store)
    requires ListsProfiles(profiles, s) && (s.active.Some? ==> s.active.value in s.names)
    ensures EnsureExactlyOneActive(profiles).Success? <==> s.active.Some?
    ensures s.active.None? ==> ActiveCount(profiles) == 0
  {
    if s.active.Some? {
      var i :| 0 <= i < |profiles| && profiles[i] == Profile(s.active.value, s.names[s.active.value], true);
      forall j | 0 <= j < |profiles|
        ensures profiles[j].isActive <==> j == i
      {
        assert profiles[j] in profiles;
      }
      CountOneActive(profiles, i, |profiles|);
      assert profiles[..|profiles|] == profiles;
    } else {
      CountNoneActive(profiles);
    }
  }

  lemma {:induction false} CountOneActive(profiles: seq<Profile>, i: nat, k: nat)
    requires i < |profiles| && k <= |profiles|
    requires forall j | 0 <= j < |profiles| :: profiles[j].isActive <==> j == i
    ensures ActiveCount(profiles[..k]) == if i < k then 1 else 0
  {
    if k > 0 {
      CountOneActive(profiles, i, k - 1);
      assert profiles[..k][..k - 1] == profiles[..k - 1];
    }
  }

  lemma {:induction false} CountNoneActive(profiles: seq<Profile>)
    requires forall p | p in profiles :: !p.isActive
    ensures ActiveCount(profiles) == 0
  {
    if profiles != [] {
      CountNoneActive(profiles[..|profiles| - 1]);
    }
  }
}
