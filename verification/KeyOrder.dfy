/** The orders of ORDER BY: text by code points, and the key columns of an assignment
  row one after another (crates/core-storage-sqlite/src/lib.rs). */
module KeyOrder {
  import opened Database

  predicate TextLeq(s: string, t: string) {
    s == "" || (t != "" && (s[0] < t[0] || (s[0] == t[0] && TextLeq(s[1..], t[1..]))))
  }

  lemma {:induction false} TextTotal(s: string, t: string)
    ensures TextLeq(s, t) || TextLeq(t, s)
  {
    if s != "" && t != "" {
      TextTotal(s[1..], t[1..]);
    }
  }

  lemma {:induction false} TextTransitive(s: string, t: string, u: string)
    requires TextLeq(s, t) && TextLeq(t, u)
    ensures TextLeq(s, u)
  {
    if s != "" && s[0] == t[0] == u[0] {
      TextTransitive(s[1..], t[1..], u[1..]);
    }
  }

  lemma {:induction false} TextAntisymmetric(s: string, t: string)
    requires TextLeq(s, t) && TextLeq(t, s)
    ensures s == t
  {
    if s != "" && t != "" {
      TextAntisymmetric(s[1..], t[1..]);
      assert s == [s[0]] + s[1..] && t == [t[0]] + t[1..];
    }
  }

  lemma {:induction false} TextOrder(s: string, t: string, u: string)
    ensures TextLeq(s, t) || TextLeq(t, s)
    ensures TextLeq(s, t) && TextLeq(t, u) ==> TextLeq(s, u)
    ensures TextLeq(s, t) && TextLeq(t, s) ==> s == t
  {
    TextTotal(s, t);
    if TextLeq(s, t) && TextLeq(t, u) {
      TextTransitive(s, t, u);
    }
    if TextLeq(s, t) && TextLeq(t, s) {
      TextAntisymmetric(s, t);
    }
  }

  /** The first difference decides, and a text comes before any longer one it starts. */
  ghost predicate NotAfter(s: string, t: string) {
    exists k: nat ::
      k <= |s| && k <= |t| && s[..k] == t[..k] && (k == |s| || (k < |t| && s[k] < t[k]))
  }

  lemma {:induction false} TextLeqIff(s: string, t: string)
    ensures TextLeq(s, t) <==> NotAfter(s, t)
  {
    if s == "" {
      assert s[..0] == t[..0];
    } else if t != "" {
      TextLeqIff(s[1..], t[1..]);
      if s[0] == t[0] {
        SameStart(s, t);
      } else if s[0] < t[0] {
        assert s[..0] == t[..0];
      }
    }
  }

  /** A common first character makes no difference. */
  lemma {:induction false} SameStart(s: string, t: string)
    requires s != "" && t != "" && s[0] == t[0]
    ensures NotAfter(s, t) <==> NotAfter(s[1..], t[1..])
  {
    if NotAfter(s[1..], t[1..]) {
      var k: nat :| k <= |s[1..]| && k <= |t[1..]| && s[1..][..k] == t[1..][..k]
        && (k == |s[1..]| || (k < |t[1..]| && s[1..][k] < t[1..][k]));
      assert s[..k + 1] == [s[0]] + s[1..][..k] && t[..k + 1] == [t[0]] + t[1..][..k];
    }
    if NotAfter(s, t) {
      var k: nat :| k <= |s| && k <= |t| && s[..k] == t[..k] && (k == |s| || (k < |t| && s[k] < t[k]));
      assert k > 0;
      assert s[1..][..k - 1] == s[..k][1..] && t[1..][..k - 1] == t[..k][1..];
    }
  }

  /** ORDER BY profile_id, page_index, control_kind, control_index, control_operation */
  predicate IdentityLeq(a: Identity, b: Identity) {
    if a.profile != b.profile then TextLeq(a.profile, b.profile)
    else if a.page != b.page then a.page < b.page
    else if a.kind != b.kind then TextLeq(a.kind, b.kind)
    else if a.index != b.index then a.index < b.index
    else TextLeq(a.operation, b.operation)
  }

  lemma {:induction false} IdentityOrder(a: Identity, b: Identity, c: Identity)
    ensures IdentityLeq(a, b) || IdentityLeq(b, a)
    ensures IdentityLeq(a, b) && IdentityLeq(b, c) ==> IdentityLeq(a, c)
    ensures IdentityLeq(a, b) && IdentityLeq(b, a) ==> a == b
  {
    TextOrder(a.profile, b.profile, c.profile);
    TextOrder(b.profile, c.profile, a.profile);
    TextOrder(a.kind, b.kind, c.kind);
    TextOrder(b.kind, c.kind, a.kind);
    TextOrder(a.operation, b.operation, c.operation);
  }

  /** and then by action_position. */
  predicate KeyLeq(k: RowKey, l: RowKey) {
    if k.identity != l.identity then IdentityLeq(k.identity, l.identity) else k.position <= l.position
  }

  lemma {:induction false} KeyOrders(k: RowKey, l: RowKey, m: RowKey)
    ensures KeyLeq(k, l) || KeyLeq(l, k)
    ensures KeyLeq(k, l) && KeyLeq(l, m) ==> KeyLeq(k, m)
  {
    IdentityOrder(k.identity, l.identity, m.identity);
    IdentityOrder(l.identity, m.identity, k.identity);
  }

  /** Some key comes first. */
  lemma {:induction false} FirstKey(keys: set<RowKey>)
    requires keys != {}
    ensures exists next | next in keys :: forall k | k in keys :: KeyLeq(next, k)
    decreases |keys|
  {
    var some :| some in keys;
    KeyOrders(some, some, some);
    if keys != {some} {
      FirstKey(keys - {some});
      var next :| next in keys - {some} && forall k | k in keys - {some} :: KeyLeq(next, k);
      KeyOrders(some, next, next);
      var least := if KeyLeq(some, next) then some else next;
      forall k | k in keys
        ensures KeyLeq(least, k)
      {
        KeyOrders(some, next, k);
        KeyOrders(next, some, k);
      }
    }
  }
}
