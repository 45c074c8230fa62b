/** The rows of a finding revision: members flattened by role, then inserted one by one. */
module FindingRows {
  import opened Common
  import opened Order
  import opened Provenance
  import opened Catalog

  /** Members of one role in the order of their identifiers, repeats kept. */
  method SortRefs(refs: seq<Id>) returns (out: seq<Id>)
    ensures multiset(out) == multiset(refs)
    ensures forall i, j :: 0 <= i < j < |out| ==> !StringLess(out[j].text, out[i].text)
  {
    hide StringLess;
    out := [];
    var n := 0;
    while n < |refs|
      invariant 0 <= n <= |refs| && multiset(out) == multiset(refs[..n])
      invariant forall i, j :: 0 <= i < j < |out| ==> !StringLess(out[j].text, out[i].text)
    {
      var at := |out|;
      while at > 0 && StringLess(refs[n].text, out[at - 1].text)
        invariant 0 <= at <= |out|
        invariant forall k :: at <= k < |out| ==> StringLess(refs[n].text, out[k].text)
      {
        at := at - 1;
      }
      InsertKeepsOrder(out, refs[n], at);
      assert refs[..n + 1] == refs[..n] + [refs[n]];
      assert out == out[..at] + out[at..];
      out := out[..at] + [refs[n]] + out[at..];
      n := n + 1;
    }
    assert refs[..n] == refs;
  }

  lemma InsertKeepsOrder(s: seq<Id>, x: Id, at: nat)
    requires at <= |s| && forall i, j :: 0 <= i < j < |s| ==> !StringLess(s[j].text, s[i].text)
    requires forall k :: at <= k < |s| ==> StringLess(x.text, s[k].text)
    requires at > 0 ==> !StringLess(x.text, s[at - 1].text)
    ensures var r := s[..at] + [x] + s[at..]; forall i, j :: 0 <= i < j < |r| ==> !StringLess(r[j].text, r[i].text)
  {
    StringLessIsStrictTotal();
    hide StringLess;
  }

  /** How often an entity is listed under a role. */
  function Listed(m: map<string, seq<Id>>, id: Id, role: string): nat {
    if role in m then multiset(m[role])[id] else 0
  }

  ghost predicate FlatOf(m: map<string, seq<Id>>, roles: set<string>, out: seq<(Id, string)>) {
    forall id, role :: multiset(out)[(id, role)] == if role in roles then Listed(m, id, role) else 0
  }

  function Tagged(ids: seq<Id>, role: string): seq<(Id, string)> {
    seq(|ids|, i requires 0 <= i < |ids| => (ids[i], role))
  }

  lemma {:induction false} TaggedCount(ids: seq<Id>, role: string, id: Id, other: string)
    ensures multiset(Tagged(ids, role))[(id, other)] == if other == role then multiset(ids)[id] else 0
    decreases |ids|
  {
    if ids != [] {
      var before, last := ids[..|ids| - 1], ids[|ids| - 1];
      TaggedCount(before, role, id, other);
      assert ids == before + [last];
      assert Tagged(ids, role) == Tagged(before, role) + [(last, role)];
    }
  }

  /** By role, then by identifier, repeats allowed. */
  ghost predicate InOrder(out: seq<(Id, string)>) {
    && (forall i, j :: 0 <= i < j < |out| ==> !StringLess(out[j].1, out[i].1))
    && (forall i, j :: 0 <= i < j < |out| && out[i].1 == out[j].1 ==> !StringLess(out[j].0.text, out[i].0.text))
  }

  lemma NextRoleInOrder(out: seq<(Id, string)>, refs: seq<Id>, role: string)
    requires InOrder(out) && forall i :: 0 <= i < |out| ==> StringLess(out[i].1, role)
    requires forall i, j :: 0 <= i < j < |refs| ==> !StringLess(refs[j].text, refs[i].text)
    ensures InOrder(out + Tagged(refs, role))
  {
    StringLessIsStrictTotal();
    hide StringLess;
  }

  /** flattenMembers: roles in order, under each its members in order, nothing added or lost. */
  method FlattenMembers(m: map<string, seq<Id>>) returns (out: seq<(Id, string)>)
    ensures FlatOf(m, m.Keys, out) && InOrder(out)
  {
    hide StringLess, InOrder, FlatOf, Elements, StrictTotal;
    StringLessIsStrictTotal();
    var roles := SortedRows(StringLess, m.Keys);
    RolesAreKeys(m, roles);
    out := [];
    NothingFlat(m, roles);
    var n := 0;
    while n < |roles|
      invariant 0 <= n <= |roles| && FlatOf(m, Elements(roles[..n]), out) && InOrder(out)
      invariant n < |roles| ==> forall i :: 0 <= i < |out| ==> StringLess(out[i].1, roles[n])
    {
      var refs := SortRefs(m[roles[n]]);
      OneMoreRole(m, roles, n, out, refs);
      NextRoleInOrder(out, refs, roles[n]);
      if n + 1 < |roles| {
        RolesGrow(roles, n, out, refs);
      }
      out := out + Tagged(refs, roles[n]);
      n := n + 1;
    }
    assert roles[..n] == roles;
  }

  lemma RolesAreKeys(m: map<string, seq<Id>>, roles: seq<string>)
    requires Elements(roles) == m.Keys
    ensures forall k :: 0 <= k < |roles| ==> roles[k] in m
  {
    assert forall k :: 0 <= k < |roles| ==> roles[k] in Elements(roles);
  }

  lemma RolesGrow(roles: seq<string>, n: nat, out: seq<(Id, string)>, refs: seq<Id>)
    requires Sorted(StringLess, roles) && n + 1 < |roles| && forall i :: 0 <= i < |out| ==> StringLess(out[i].1, roles[n])
    ensures var all := out + Tagged(refs, roles[n]); forall i :: 0 <= i < |all| ==> StringLess(all[i].1, roles[n + 1])
  {
    StringLessIsStrictTotal();
    hide StringLess;
    assert StringLess(roles[n], roles[n + 1]);
  }

  lemma NothingFlat(m: map<string, seq<Id>>, roles: seq<string>)
    ensures FlatOf(m, Elements(roles[..0]), []) && InOrder([])
  {
  }

  lemma OneMoreRole(m: map<string, seq<Id>>, roles: seq<string>, n: nat, out: seq<(Id, string)>, refs: seq<Id>)
    requires n < |roles| && Sorted(StringLess, roles) && roles[n] in m && multiset(refs) == multiset(m[roles[n]])
    requires FlatOf(m, Elements(roles[..n]), out)
    ensures FlatOf(m, Elements(roles[..n + 1]), out + Tagged(refs, roles[n]))
  {
    StringLessIsStrictTotal();
    hide StringLess;
    assert roles[..n + 1] == roles[..n] + [roles[n]];
    assert Elements(roles[..n + 1]) == Elements(roles[..n]) + {roles[n]};
    forall k | 0 <= k < n
      ensures roles[..n][k] != roles[n]
    {
    }
    forall id, role
      ensures multiset(out + Tagged(refs, roles[n]))[(id, role)] == if role in Elements(roles[..n + 1]) then Listed(m, id, role) else 0
    {
      TaggedCount(refs, roles[n], id, role);
    }
  }

  /** The tables the loop inserts into. */
  class MemberTables {
    var members: set<(Id, string)>
    var inputs: set<Edge>

    constructor (existing: set<Edge>)
      ensures members == {} && inputs == existing
    {
      members, inputs := {}, existing;
    }

    /** The insert loop of AuthorFinding and ReviseFinding. A repeated member breaks the primary
        key, an unknown entity a foreign key; otherwise the rows are those of the plan. */
    method InsertMembers(c: Core, a: Id, rows: seq<(Id, string)>) returns (ok: bool)
      requires members == {}
      modifies this
      ensures ok <==> NoDuplicates(rows) && forall m :: m in rows ==> m.0 in c.entities
      ensures ok ==> members == Elements(rows) && inputs == old(inputs) + InputEdges(a, Elements(rows))
    {
      var i := 0;
      while i < |rows|
        invariant 0 <= i <= |rows| && NoDuplicates(rows[..i]) && (forall k :: 0 <= k < i ==> rows[k].0 in c.entities)
        invariant members == Elements(rows[..i]) && inputs == old(inputs) + InputEdges(a, Elements(rows[..i]))
      {
        var m := rows[i];
        assert rows[..i + 1] == rows[..i] + [m];
        EdgesOfOneMore(a, rows, i);
        if m in members {
          var k :| 0 <= k < i && rows[..i][k] == m;
          return false;
        }
        if m.0 !in c.entities {
          assert m in rows;
          return false;
        }
        members := members + {m};
        inputs := inputs + {Edge(a, m.0, m.1)};
        i := i + 1;
      }
      assert rows[..i] == rows;
      ok := true;
    }
  }

  lemma EdgesOfOneMore(a: Id, rows: seq<(Id, string)>, i: nat)
    requires i < |rows|
    ensures Elements(rows[..i + 1]) == Elements(rows[..i]) + {rows[i]}
    ensures InputEdges(a, Elements(rows[..i + 1])) == InputEdges(a, Elements(rows[..i])) + {Edge(a, rows[i].0, rows[i].1)}
  {
    assert rows[..i + 1] == rows[..i] + [rows[i]];
    var s, t := Elements(rows[..i]), Elements(rows[..i + 1]);
    assert t == s + {rows[i]};
    assert Edge(a, rows[i].0, rows[i].1) in InputEdges(a, t);
    forall u | u in s
      ensures Edge(a, u.0, u.1) in InputEdges(a, t)
    {
    }
  }
}
