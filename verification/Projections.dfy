/** Projections: who is in, who is out and why; and the budgets, sidecars and paths of a
    materialization. */
module Projections {
  import opened Common
  import opened Order
  import opened Paths
  import opened Catalog
  import opened Closures
  import Bag
  import Queries

  // ---- Included and excluded members ----

  datatype Exclusion = Exclusion(id: string, reason: string)
  datatype ExcludedMember = ExcludedMember(ref: Ref, reason: string)

  const FILTERED := "entity kind excluded by projection filter"

  predicate ExclusionsOk(exclusions: seq<Exclusion>) {
    && (forall i :: 0 <= i < |exclusions| ==> exclusions[i].id != "" && !Blank(exclusions[i].reason))
    && (forall i, j :: 0 <= i < j < |exclusions| ==> exclusions[i].id != exclusions[j].id)
  }

  function Reasons(exclusions: seq<Exclusion>): map<string, string> {
    if exclusions == [] then map[]
    else Reasons(exclusions[..|exclusions| - 1])[exclusions[|exclusions| - 1].id := exclusions[|exclusions| - 1].reason]
  }

  predicate Keeps(kinds: set<string>, reasons: map<string, string>, m: Member) {
    m.ref.id.text !in reasons && (kinds == {} || KindName(m.ref.kind) in kinds)
  }

  /** The members that stay, in order. */
  function Included(members: seq<Member>, kinds: set<string>, reasons: map<string, string>): seq<Member> {
    if members == [] then [] else
    var m := members[|members| - 1];
    Included(members[..|members| - 1], kinds, reasons) + if Keeps(kinds, reasons, m) then [m] else []
  }

  /** The members that go, in order, each with the caller's reason or the filter's. */
  function Excluded(members: seq<Member>, kinds: set<string>, reasons: map<string, string>): seq<ExcludedMember> {
    if members == [] then [] else
    var m := members[|members| - 1];
    Excluded(members[..|members| - 1], kinds, reasons)
    + if Keeps(kinds, reasons, m) then []
      else [ExcludedMember(m.ref, if m.ref.id.text in reasons then reasons[m.ref.id.text] else FILTERED)]
  }

  function MemberIds(members: seq<Member>): set<string> {
    set m | m in members :: m.ref.id.text
  }

  lemma {:induction false} ReasonKeys(exclusions: seq<Exclusion>)
    ensures forall id :: id in Reasons(exclusions) <==> exists i :: 0 <= i < |exclusions| && exclusions[i].id == id
    decreases |exclusions|
  {
    if exclusions != [] {
      var before := exclusions[..|exclusions| - 1];
      ReasonKeys(before);
      forall id | id in Reasons(exclusions)
        ensures exists i :: 0 <= i < |exclusions| && exclusions[i].id == id
      {
        if id in Reasons(before) {
          var i :| 0 <= i < |before| && before[i].id == id;
          assert exclusions[i].id == id;
        }
      }
      forall i | 0 <= i < |exclusions|
        ensures exclusions[i].id in Reasons(exclusions)
      {
        if i < |before| {
          assert before[i].id == exclusions[i].id;
        }
      }
    }
  }

  /** The partition step of CreateProjection. */
  method PartitionMembers(members: seq<Member>, kinds: seq<string>, exclusions: seq<Exclusion>)
      returns (r: Tx<(seq<Member>, seq<ExcludedMember>), ()>)
    ensures r.Commit? <==> "" !in kinds && ExclusionsOk(exclusions) && Reasons(exclusions).Keys <= MemberIds(members)
    ensures !r.Commit? ==> r == Abort(Invalid)
    ensures r.Commit? ==>
              r.state == (Included(members, Elements(kinds), Reasons(exclusions)), Excluded(members, Elements(kinds), Reasons(exclusions)))
  {
    if "" in kinds {
      return Abort(Invalid);
    }
    var allowed := Elements(kinds);
    var reasons := CollectExclusions(exclusions);
    if reasons.None? {
      return Abort(Invalid);
    }
    var included, excluded, found := Divide(members, allowed, reasons.value);
    hide Included, Excluded, Reasons, ExclusionsOk, MemberIds, Elements;
    NothingLeftOver(reasons.value.Keys, found, MemberIds(members));
    if reasons.value.Keys - found != {} {
      return Abort(Invalid);
    }
    r := Commit((included, excluded), ());
  }

  lemma NothingLeftOver(keys: set<string>, found: set<string>, ids: set<string>)
    requires found == ids * keys
    ensures keys - found == {} <==> keys <= ids
  {
    if keys - found == {} {
      assert forall id :: id in keys ==> id !in keys - found;
    }
  }

  method Divide(members: seq<Member>, allowed: set<string>, reasons: map<string, string>)
      returns (included: seq<Member>, excluded: seq<ExcludedMember>, found: set<string>)
    ensures included == Included(members, allowed, reasons) && excluded == Excluded(members, allowed, reasons)
    ensures found == MemberIds(members) * reasons.Keys
  {
    hide KindName, MemberIds;
    included, excluded, found := [], [], {};
    NoMemberIds();
    var n := 0;
    while n < |members|
      invariant 0 <= n <= |members|
      invariant included == Included(members[..n], allowed, reasons) && excluded == Excluded(members[..n], allowed, reasons)
      invariant found == MemberIds(members[..n]) * reasons.Keys
    {
      var m := members[n];
      assert members[..n + 1][..n] == members[..n];
      OneMoreMember(members, n);
      if m.ref.id.text in reasons {
        excluded := excluded + [ExcludedMember(m.ref, reasons[m.ref.id.text])];
        found := found + {m.ref.id.text};
      } else if allowed != {} && KindName(m.ref.kind) !in allowed {
        excluded := excluded + [ExcludedMember(m.ref, FILTERED)];
      } else {
        included := included + [m];
      }
      n := n + 1;
    }
    assert members[..n] == members;
  }

  lemma NoMemberIds()
    ensures MemberIds([]) == {}
  {
  }

  lemma OneMoreMember(members: seq<Member>, n: nat)
    requires n < |members|
    ensures MemberIds(members[..n + 1]) == MemberIds(members[..n]) + {members[n].ref.id.text}
  {
    assert members[..n + 1] == members[..n] + [members[n]];
    assert forall m :: m in members[..n + 1] <==> m in members[..n] || m == members[n];
  }

  method CollectExclusions(exclusions: seq<Exclusion>) returns (reasons: Option<map<string, string>>)
    ensures reasons.Some? <==> ExclusionsOk(exclusions)
    ensures reasons.Some? ==> reasons.value == Reasons(exclusions)
  {
    var collected: map<string, string> := map[];
    var i := 0;
    while i < |exclusions|
      invariant 0 <= i <= |exclusions| && ExclusionsOk(exclusions[..i]) && collected == Reasons(exclusions[..i])
    {
      var e := exclusions[i];
      ReasonKeys(exclusions[..i]);
      assert exclusions[..i + 1][..i] == exclusions[..i];
      if e.id == "" || Blank(e.reason) || e.id in collected {
        if e.id in collected {
          var j :| 0 <= j < i && exclusions[..i][j].id == e.id;
          assert exclusions[j].id == exclusions[i].id;
        }
        return None;
      }
      collected := collected[e.id := e.reason];
      i := i + 1;
    }
    assert exclusions[..i] == exclusions;
    reasons := Some(collected);
  }

  /** Every resolved member is on exactly one side, and nothing else is on either. */
  lemma {:induction false} PartitionIsExact(members: seq<Member>, kinds: set<string>, reasons: map<string, string>)
    ensures |Included(members, kinds, reasons)| + |Excluded(members, kinds, reasons)| == |members|
    ensures forall m :: m in Included(members, kinds, reasons) <==> m in members && Keeps(kinds, reasons, m)
    ensures forall e :: e in Excluded(members, kinds, reasons) <==>
      exists m :: m in members && !Keeps(kinds, reasons, m) && e == ExcludedFor(reasons, m)
    decreases |members|
  {
    hide Keeps;
    if members != [] {
      var before, last := members[..|members| - 1], members[|members| - 1];
      PartitionIsExact(before, kinds, reasons);
      assert members == before + [last];
      assert forall m :: m in members <==> m in before || m == last;
      forall e | e in Excluded(members, kinds, reasons)
        ensures exists m :: m in members && !Keeps(kinds, reasons, m) && e == ExcludedFor(reasons, m)
      {
        if e in Excluded(before, kinds, reasons) {
          var m :| m in before && !Keeps(kinds, reasons, m) && e == ExcludedFor(reasons, m);
          assert m in members;
        }
      }
    }
  }

  function ExcludedFor(reasons: map<string, string>, m: Member): ExcludedMember {
    ExcludedMember(m.ref, if m.ref.id.text in reasons then reasons[m.ref.id.text] else FILTERED)
  }

  /** Both sides keep the order of the resolved closure. */
  lemma {:induction false} PartitionKeepsOrder(members: seq<Member>, kinds: set<string>, reasons: map<string, string>)
    requires forall i, j :: 0 <= i < j < |members| ==> RefLess(members[i].ref, members[j].ref)
    ensures var s := Included(members, kinds, reasons); forall i, j :: 0 <= i < j < |s| ==> RefLess(s[i].ref, s[j].ref)
    ensures var s := Excluded(members, kinds, reasons); forall i, j :: 0 <= i < j < |s| ==> RefLess(s[i].ref, s[j].ref)
    decreases |members|
  {
    hide Keeps, RefLess;
    if members != [] {
      var before, last := members[..|members| - 1], members[|members| - 1];
      PartitionKeepsOrder(before, kinds, reasons);
      PartitionIsExact(before, kinds, reasons);
      forall m | m in before
        ensures RefLess(m.ref, last.ref)
      {
        var i :| 0 <= i < |before| && before[i] == m;
        assert members[i] == m;
      }
      var s, t := Included(before, kinds, reasons), Excluded(before, kinds, reasons);
      assert forall i :: 0 <= i < |s| ==> s[i] in s;
      assert forall i :: 0 <= i < |t| ==> t[i] in t;
    }
  }

  // ---- The partition told on the request ----

  /** The caller excludes the member, for that reason. */
  ghost predicate ExcludedBy(exclusions: seq<Exclusion>, m: Member, reason: string) {
    exists i :: 0 <= i < |exclusions| && exclusions[i].id == m.ref.id.text && exclusions[i].reason == reason
  }

  ghost predicate NamedBy(exclusions: seq<Exclusion>, m: Member) {
    exists i :: 0 <= i < |exclusions| && exclusions[i].id == m.ref.id.text
  }

  ghost predicate OfKind(kinds: seq<string>, m: Member) {
    kinds == [] || KindName(m.ref.kind) in kinds
  }

  /** x is what a member that goes leaves behind. */
  ghost predicate GoesAs(kinds: seq<string>, exclusions: seq<Exclusion>, m: Member, x: ExcludedMember) {
    x.ref == m.ref
    && (ExcludedBy(exclusions, m, x.reason)
        || (!NamedBy(exclusions, m) && !OfKind(kinds, m) && x.reason == "entity kind excluded by projection filter"))
  }

  lemma {:induction false} ReasonAt(exclusions: seq<Exclusion>, i: nat)
    requires ExclusionsOk(exclusions) && i < |exclusions|
    ensures exclusions[i].id in Reasons(exclusions) && Reasons(exclusions)[exclusions[i].id] == exclusions[i].reason
    decreases |exclusions|
  {
    var before := exclusions[..|exclusions| - 1];
    if i < |before| {
      ReasonAt(before, i);
    }
  }

  lemma KeptMeans(kinds: seq<string>, exclusions: seq<Exclusion>, m: Member)
    requires ExclusionsOk(exclusions)
    ensures Keeps(Elements(kinds), Reasons(exclusions), m) <==> !NamedBy(exclusions, m) && OfKind(kinds, m)
  {
    ReasonKeys(exclusions);
    assert Elements(kinds) == {} <==> kinds == [] by {
      assert kinds != [] ==> kinds[0] in Elements(kinds);
    }
  }

  lemma GoneMeans(kinds: seq<string>, exclusions: seq<Exclusion>, m: Member, x: ExcludedMember)
    requires ExclusionsOk(exclusions) && !Keeps(Elements(kinds), Reasons(exclusions), m)
    ensures x == ExcludedFor(Reasons(exclusions), m) <==> GoesAs(kinds, exclusions, m, x)
  {
    KeptMeans(kinds, exclusions, m);
    ReasonKeys(exclusions);
    forall i | 0 <= i < |exclusions|
      ensures Reasons(exclusions)[exclusions[i].id] == exclusions[i].reason
    {
      ReasonAt(exclusions, i);
    }
    hide Reasons, Elements;
  }

  /** A member stays exactly when no exclusion names it and it is of a kind asked for, if any
      are; every other goes, with the reason of the exclusion that names it, or the filter's. */
  lemma PartitionMeans(members: seq<Member>, kinds: seq<string>, exclusions: seq<Exclusion>)
    requires ExclusionsOk(exclusions)
    ensures forall m :: m in Included(members, Elements(kinds), Reasons(exclusions)) <==>
      m in members && !NamedBy(exclusions, m) && OfKind(kinds, m)
    ensures forall x :: x in Excluded(members, Elements(kinds), Reasons(exclusions)) <==>
      exists m :: m in members && GoesAs(kinds, exclusions, m, x)
  {
    PartitionIsExact(members, Elements(kinds), Reasons(exclusions));
    hide Included, Excluded, Keeps, GoesAs, NamedBy, OfKind, ExcludedFor;
    forall m
      ensures Keeps(Elements(kinds), Reasons(exclusions), m) <==> !NamedBy(exclusions, m) && OfKind(kinds, m)
    {
      KeptMeans(kinds, exclusions, m);
    }
    forall m, x
      ensures GoesAs(kinds, exclusions, m, x) <==>
        !Keeps(Elements(kinds), Reasons(exclusions), m) && x == ExcludedFor(Reasons(exclusions), m)
    {
      if Keeps(Elements(kinds), Reasons(exclusions), m) {
        KeptDoesNotGo(kinds, exclusions, m, x);
      } else {
        GoneMeans(kinds, exclusions, m, x);
      }
    }
  }

  lemma KeptDoesNotGo(kinds: seq<string>, exclusions: seq<Exclusion>, m: Member, x: ExcludedMember)
    requires !NamedBy(exclusions, m) && OfKind(kinds, m)
    ensures !GoesAs(kinds, exclusions, m, x)
  {
    assert ExcludedBy(exclusions, m, x.reason) ==> NamedBy(exclusions, m);
  }
}
