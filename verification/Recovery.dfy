/** Recovery ends abandoned activities: a loop of row updates inside one transaction, against
    the single step of the catalog machine. */
module Recovery {
  import opened Common
  import opened Order
  import opened Provenance
  import opened Catalog

  /** The tables a transaction works on; a rollback restores them. */
  class Tables {
    var core: Core

    constructor (c: Core)
      ensures core == c
    {
      core := c;
    }

    /** MarkActivitiesInterrupted: all named activities end, or the tables stay as they were. */
    method MarkActivitiesInterrupted(activities: seq<Id>, reason: string) returns (r: Tx<(), ()>)
      modifies this
      ensures !RequestOk(activities, reason) ==> r == Abort(Invalid) && core == old(core)
      ensures RequestOk(activities, reason) ==>
                match Interrupt(old(core), Elements(activities))
                case Commit(c, _) => r == Commit((), ()) && core == c
                case Replay(_) => false
                case Abort(e) => r == Abort(e) && core == old(core)
    {
      hide Sealed, Elements, Interrupt, Terminate, Ended, NoDuplicates;
      NoneEnded(core, core.revision + 1);
      if activities == [] || reason == "" {
        return Abort(Invalid);
      }
      var ids := SortIds(activities);
      if ids.None? {
        return Abort(Invalid);
      }
      var before := core;
      var rev := core.revision + 1;
      var i := 0;
      while i < |ids.value|
        invariant 0 <= i <= |ids.value|
        invariant core == before.(activities := Ended(before.activities, Elements(ids.value[..i]), rev))
        invariant forall k :: 0 <= k < i ==> RunningIn(before, ids.value[k])
      {
        var id := ids.value[i];
        assert ids.value[..i + 1] == ids.value[..i] + [id];
        NotYetEnded(before, ids.value, i, rev);
        if id !in core.activities || !core.activities[id].state.Running? {
          core := before;
          SomeNotRunning(before, ids.value, i);
          return Abort(Conflict);
        }
        OneMoreEnded(before.activities, ids.value, i, rev);
        core := core.(activities := core.activities[id := Sealed(core.activities[id], rev).(state := Interrupted)]);
        i := i + 1;
      }
      assert ids.value[..i] == ids.value;
      core := core.(revision := rev);
      AllRunning(before, ids.value, activities);
      r := Commit((), ());
    }
  }

  predicate RunningIn(c: Core, a: Id) {
    a in c.activities && c.activities[a].state.Running?
  }

  /** What the caller must pass: a reason, and identifiers that are neither empty nor repeated. */
  ghost predicate RequestOk(activities: seq<Id>, reason: string) {
    activities != [] && reason != "" && (forall a :: a in activities ==> a.text != "") && NoDuplicates(activities)
  }

  function Ended(activities: map<Id, Activity>, ids: set<Id>, rev: nat): map<Id, Activity> {
    map a | a in activities :: if a in ids then Sealed(activities[a], rev).(state := Interrupted) else activities[a]
  }

  lemma NoneEnded(c: Core, rev: nat)
    ensures forall ids: seq<Id> :: c.(activities := Ended(c.activities, Elements(ids[..0]), rev)) == c
  {
    assert Ended(c.activities, {}, rev) == c.activities;
    forall ids: seq<Id>
      ensures Elements(ids[..0]) == {}
    {
    }
  }

  /** Sorts the identifiers and looks for an empty one or two equal neighbours. */
  method SortIds(activities: seq<Id>) returns (ids: Option<seq<Id>>)
    ensures ids.Some? <==> (forall a :: a in activities ==> a.text != "") && NoDuplicates(activities)
    ensures ids.Some? ==> NoDuplicates(ids.value) && Elements(ids.value) == Elements(activities)
  {
    var seen: set<Id> := {};
    var i := 0;
    while i < |activities|
      invariant 0 <= i <= |activities| && seen == Elements(activities[..i])
      invariant NoDuplicates(activities[..i]) && forall k :: 0 <= k < i ==> activities[k].text != ""
    {
      assert activities[..i + 1] == activities[..i] + [activities[i]];
      if activities[i].text == "" {
        return None;
      }
      if activities[i] in seen {
        var k :| 0 <= k < i && activities[..i][k] == activities[i];
        return None;
      }
      seen := seen + {activities[i]};
      i := i + 1;
    }
    assert activities[..i] == activities;
    IdLessIsStrictTotal();
    var sorted := SortedRows(IdLess, seen);
    SortedHasNoDuplicates(sorted);
    ids := Some(sorted);
  }

  lemma SortedHasNoDuplicates(ids: seq<Id>)
    requires Sorted(IdLess, ids)
    ensures NoDuplicates(ids)
  {
    IdLessIsStrictTotal();
    hide IdLess;
  }

  lemma NotYetEnded(c: Core, ids: seq<Id>, i: nat, rev: nat)
    requires NoDuplicates(ids) && i < |ids|
    ensures ids[i] !in Elements(ids[..i])
    ensures RunningIn(c.(activities := Ended(c.activities, Elements(ids[..i]), rev)), ids[i]) <==> RunningIn(c, ids[i])
  {
    forall k | 0 <= k < i
      ensures ids[..i][k] != ids[i]
    {
    }
  }

  lemma OneMoreEnded(activities: map<Id, Activity>, ids: seq<Id>, i: nat, rev: nat)
    requires NoDuplicates(ids) && i < |ids| && ids[i] in activities && ids[i] !in Elements(ids[..i])
    ensures var done := Ended(activities, Elements(ids[..i]), rev);
            Ended(activities, Elements(ids[..i + 1]), rev) == done[ids[i] := Sealed(done[ids[i]], rev).(state := Interrupted)]
  {
    assert ids[..i + 1] == ids[..i] + [ids[i]];
    assert Elements(ids[..i + 1]) == Elements(ids[..i]) + {ids[i]};
  }

  lemma SomeNotRunning(c: Core, ids: seq<Id>, i: nat)
    requires i < |ids| && !RunningIn(c, ids[i])
    ensures Interrupt(c, Elements(ids)) == Abort(Conflict)
  {
    assert ids[i] in Elements(ids);
  }

  lemma AllRunning(c: Core, ids: seq<Id>, activities: seq<Id>)
    requires Elements(ids) == Elements(activities) && activities != []
    requires forall k :: 0 <= k < |ids| ==> RunningIn(c, ids[k])
    ensures Interrupt(c, Elements(activities))
            == Commit(c.(revision := c.revision + 1, activities := Ended(c.activities, Elements(ids), c.revision + 1)), ())
  {
    assert activities[0] in Elements(activities);
    forall a | a in Elements(ids)
      ensures RunningIn(c, a)
    {
      var k :| 0 <= k < |ids| && ids[k] == a;
    }
  }
}
