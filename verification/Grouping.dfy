/** Grouping assignment rows into assignments
  (crates/core-storage-sqlite/src/lib.rs, `list_assignments_locked`). */
module Grouping {
  import opened Domain
  import opened Store

  datatype Row = Row(binding: Binding, action: Action)

  /** The bindings of the first `k` rows, each where it first appears. */
  function FirstAppearances(rows: seq<Row>, k: nat): seq<Binding>
    requires k <= |rows|
  {
    if k == 0 then [] else
      var found := FirstAppearances(rows, k - 1);
      if rows[k - 1].binding in found then found else found + [rows[k - 1].binding]
  }

  /** The actions of one binding in the first `k` rows, in row order. */
  function ActionsOf(rows: seq<Row>, b: Binding, k: nat): seq<Action>
    requires k <= |rows|
  {
    if k == 0 then []
    else ActionsOf(rows, b, k - 1) + (if rows[k - 1].binding == b then [rows[k - 1].action] else [])
  }

  ghost predicate Groups(assignments: seq<Assignment>, rows: seq<Row>, k: nat)
    requires k <= |rows|
  {
    && |assignments| == |FirstAppearances(rows, k)|
    && forall i | 0 <= i < |assignments| ::
         var b := FirstAppearances(rows, k)[i];
         assignments[i] == Assignment(b.profile, b.control, ActionsOf(rows, b, k))
  }

  /** The grouping loop, for any rows: one assignment for each binding, in the order
    of first appearance, with all its actions in row order, adjacent or not. */
  method GroupRows(rows: seq<Row>) returns (assignments: seq<Assignment>)
    ensures Groups(assignments, rows, |rows|)
  {
    assignments := [];
    for k := 0 to |rows|
      invariant Groups(assignments, rows, k)
    {
      FirstAppearancesAre(rows, k);
      var row := rows[k];
      var i := 0;
      while i < |assignments| && Binding(assignments[i].profileId, assignments[i].control) != row.binding
        invariant i <= |assignments|
        invariant forall j | 0 <= j < i :: FirstAppearances(rows, k)[j] != row.binding
      {
        i := i + 1;
      }
      NoActionsBefore(rows, row.binding, k);
      if i < |assignments| {
        assignments := assignments[i := assignments[i].(actions := assignments[i].actions + [row.action])];
      } else {
        assignments := assignments + [Assignment(row.binding.profile, row.binding.control, [row.action])];
      }
    }
  }

  ghost predicate AllDiffer(found: seq<Binding>) {
    forall i, j | 0 <= i < j < |found| :: found[i] != found[j]
  }

  /** Every binding that occurs is listed once. */
  lemma {:induction false} FirstAppearancesAre(rows: seq<Row>, k: nat)
    requires k <= |rows|
    ensures AllDiffer(FirstAppearances(rows, k))
    ensures forall i | 0 <= i < k :: rows[i].binding in FirstAppearances(rows, k)
    ensures forall b | b in FirstAppearances(rows, k) :: exists i :: 0 <= i < k && rows[i].binding == b
  {
    if k > 0 {
      FirstAppearancesAre(rows, k - 1);
    }
  }

  lemma {:induction false} NoActionsBefore(rows: seq<Row>, b: Binding, k: nat)
    requires k <= |rows|
    ensures b !in FirstAppearances(rows, k) <==> ActionsOf(rows, b, k) == []
  {
    if k > 0 {
      NoActionsBefore(rows, b, k - 1);
    }
  }

  /** The index of the first row of a binding. */
  ghost function FirstIndex(rows: seq<Row>, b: Binding): nat
    ensures FirstIndex(rows, b) <= |rows|
    ensures FirstIndex(rows, b) < |rows| ==> rows[FirstIndex(rows, b)].binding == b
    ensures forall i | 0 <= i < FirstIndex(rows, b) :: rows[i].binding != b
  {
    if rows == [] then 0
    else if rows[0].binding == b then 0
    else
      var rest := FirstIndex(rows[1..], b);
      assert forall i | 1 <= i < |rows| :: rows[i] == rows[1..][i - 1];
      1 + rest
  }

  /** The bindings come in the order of their first rows. */
  lemma {:induction false} FirstAppearanceOrder(rows: seq<Row>, k: nat, i: nat, j: nat)
    requires k <= |rows| && i < j < |FirstAppearances(rows, k)|
    ensures var found := FirstAppearances(rows, k);
      FirstIndex(rows, found[i]) < FirstIndex(rows, found[j]) < k
    decreases k
  {
    var found, b := FirstAppearances(rows, k - 1), rows[k - 1].binding;
    FirstAppearancesAre(rows, k - 1);
    if j < |found| {
      FirstAppearanceOrder(rows, k - 1, i, j);
    } else {
      assert FirstAppearances(rows, k) == found + [b];
      assert forall l | 0 <= l < k - 1 :: rows[l].binding != b;
      assert FirstIndex(rows, b) == k - 1;
      var first := found[i];
      assert first in found;
      var l :| 0 <= l < k - 1 && rows[l].binding == first;
    }
  }

  /** The number of actions in the groups of `found`. */
  function CountActions(rows: seq<Row>, found: seq<Binding>, k: nat): nat
    requires k <= |rows|
  {
    if found == [] then 0
    else CountActions(rows, found[..|found| - 1], k) + |ActionsOf(rows, found[|found| - 1], k)|
  }

  lemma {:induction false} OneMoreAction(rows: seq<Row>, found: seq<Binding>, k: nat)
    requires 0 < k <= |rows| && AllDiffer(found)
    ensures CountActions(rows, found, k)
         == CountActions(rows, found, k - 1) + (if rows[k - 1].binding in found then 1 else 0)
  {
    if found != [] {
      OneMoreAction(rows, found[..|found| - 1], k);
      assert found == found[..|found| - 1] + [found[|found| - 1]];
    }
  }

  lemma {:induction false} OneMoreGroup(rows: seq<Row>, found: seq<Binding>, b: Binding, k: nat)
    requires k <= |rows|
    ensures CountActions(rows, found + [b], k) == CountActions(rows, found, k) + |ActionsOf(rows, b, k)|
  {
    assert (found + [b])[..|found|] == found;
  }

  lemma {:induction false} FirstAppearancesDiffer(rows: seq<Row>, k: nat)
    requires k <= |rows|
    ensures AllDiffer(FirstAppearances(rows, k))
  {
    FirstAppearancesAre(rows, k);
  }

  /** A new row adds one action, to its group or to a new one. */
  lemma {:induction false} OneMoreRow(rows: seq<Row>, before: seq<Binding>, b: Binding, k: nat)
    requires 0 < k <= |rows| && rows[k - 1].binding == b
    requires AllDiffer(before)
    requires b !in before ==> ActionsOf(rows, b, k - 1) == []
    ensures CountActions(rows, if b in before then before else before + [b], k) == CountActions(rows, before, k - 1) + 1
  {
    OneMoreAction(rows, before, k);
    OneMoreGroup(rows, before, b, k);
  }

  lemma {:induction false} NextAppearance(rows: seq<Row>, k: nat)
    requires 0 < k <= |rows|
    ensures var before, b := FirstAppearances(rows, k - 1), rows[k - 1].binding;
      && FirstAppearances(rows, k) == (if b in before then before else before + [b])
      && AllDiffer(before)
      && (b !in before ==> ActionsOf(rows, b, k - 1) == [])
  {
    FirstAppearancesDiffer(rows, k - 1);
    NoActionsBefore(rows, rows[k - 1].binding, k - 1);
  }

  /** No row is lost and none is counted twice. */
  lemma {:induction false} GroupsHoldAllRows(rows: seq<Row>, k: nat)
    requires k <= |rows|
    ensures CountActions(rows, FirstAppearances(rows, k), k) == k
  {
    if k > 0 {
      GroupsHoldAllRows(rows, k - 1);
      NextAppearance(rows, k);
      OneMoreRow(rows, FirstAppearances(rows, k - 1), rows[k - 1].binding, k);
    }
  }

  function TotalActions(assignments: seq<Assignment>, n: nat): nat
    requires n <= |assignments|
  {
    if n == 0 then 0 else TotalActions(assignments, n - 1) + |assignments[n - 1].actions|
  }

  lemma {:induction false} GroupAt(assignments: seq<Assignment>, rows: seq<Row>, i: nat)
    requires Groups(assignments, rows, |rows|) && i < |assignments|
    ensures i < |FirstAppearances(rows, |rows|)|
    ensures assignments[i].actions == ActionsOf(rows, FirstAppearances(rows, |rows|)[i], |rows|)
  {
  }

  lemma {:induction false} TotalIsCount(assignments: seq<Assignment>, rows: seq<Row>, n: nat)
    requires Groups(assignments, rows, |rows|) && n <= |assignments|
    ensures TotalActions(assignments, n) == CountActions(rows, FirstAppearances(rows, |rows|)[..n], |rows|)
  {
    if n > 0 {
      TotalIsCount(assignments, rows, n - 1);
      var found := FirstAppearances(rows, |rows|);
      GroupAt(assignments, rows, n - 1);
      assert found[..n] == found[..n - 1] + [found[n - 1]];
      OneMoreGroup(rows, found[..n - 1], found[n - 1], |rows|);
    }
  }

  /** The list of assignments holds as many actions as there are rows. */
  lemma {:induction false} GroupedActionsAreRows(assignments: seq<Assignment>, rows: seq<Row>)
    requires Groups(assignments, rows, |rows|)
    ensures TotalActions(assignments, |assignments|) == |rows|
  {
    var found := FirstAppearances(rows, |rows|);
    assert found[..|assignments|] == found;
    TotalIsCount(assignments, rows, |assignments|);
    GroupsHoldAllRows(rows, |rows|);
  }
}
