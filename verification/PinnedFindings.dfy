/** The one query leaf whose pinned answer can move: membership of a finding. */
module PinnedFindings {
  import opened Common
  import opened Order
  import opened Provenance
  import opened Catalog
  import opened CatalogInvariants
  import opened CaseHistory
  import opened Queries

  function InFindingQuery(f: Id): Query {
    Query(InFinding, [], f.text, "", "", 0, 0, None, None)
  }

  /** The pinned answer of an InFinding query is the same in a later catalog exactly when no
      revision of the finding lists an entity, visible at the pin, that was not a member then. */
  lemma PinnedFindingAnswer(c: Catalog, d: Catalog, rev: nat, f: Id)
    requires Inv(c) && Inv(d) && Extends(c, d) && rev <= c.core.revision
    ensures Answer(d, rev, InFindingQuery(f)) == Answer(c, rev, InFindingQuery(f))
      <==> forall x :: Visible(c, rev, x) && Lists(d, f, x) ==> x in MemberSet(c, FindingSet(f))
  {
    var q := InFindingQuery(f);
    hide Inv, Extends, MemberSet, Lists, Answer, Visible, Viewable, ViewOf;
    if Answer(d, rev, q) == Answer(c, rev, q) {
      forall x | Visible(c, rev, x) && Lists(d, f, x)
        ensures x in MemberSet(c, FindingSet(f))
      {
        LeafAnswer(c, d, rev, f, x);
      }
    }
    if forall x :: Visible(c, rev, x) && Lists(d, f, x) ==> x in MemberSet(c, FindingSet(f)) {
      assert Settled(c, d, rev, q);
      SettledAnswer(c, d, rev, q);
    }
  }

  lemma LeafAnswer(c: Catalog, d: Catalog, rev: nat, f: Id, x: Id)
    requires Inv(c) && Inv(d) && Extends(c, d) && rev <= c.core.revision && Visible(c, rev, x)
    ensures var q := InFindingQuery(f);
            && RefOf(c, x) == ViewOf(c, x).ref
            && (RefOf(c, x) in Answer(c, rev, q) <==> x in MemberSet(c, FindingSet(f)))
            && (RefOf(c, x) in Answer(d, rev, q) <==> x in MemberSet(c, FindingSet(f)) || Lists(d, f, x))
  {
    var q := InFindingQuery(f);
    hide Inv, Extends, MemberSet, Lists, Answer;
    VisibleIsFixed(c, d, rev, x);
    ViewIsFixed(c, d, x);
    FindingMembershipGrows(c, d, f, x);
    assert KeyOf(q) == FindingSet(f) && RefOf(c, x) == ViewOf(c, x).ref == ViewOf(d, x).ref == RefOf(d, x);
    AnswerHas(c, rev, q, x);
    AnswerHas(d, rev, q, x);
  }

  lemma AnswerHas(c: Catalog, rev: nat, q: Query, x: Id)
    requires Visible(c, rev, x)
    ensures RefOf(c, x) in Answer(c, rev, q) <==> Matches(c, rev, q, x)
  {
    hide Matches;
    if RefOf(c, x) in Answer(c, rev, q) {
      var y :| y in c.core.entities && Visible(c, rev, y) && Matches(c, rev, q, y) && RefOf(c, y) == RefOf(c, x);
    }
  }

  /** A reviser can tell beforehand whether the new revision moves pinned answers: it does
      exactly when it lists a visible entity that no revision has named. */
  lemma RevisionMovesPinnedAnswer(c: Catalog, r: Request, rev: nat)
    requires Inv(c) && r.call.ReviseFinding? && Handle(c, r).Commit? && rev <= c.core.revision
    ensures var q := InFindingQuery(r.call.finding);
            Answer(Next(c, r), rev, q) == Answer(c, rev, q)
            <==> forall m :: m in r.call.members && Visible(c, rev, m.0) ==> m.0 in MemberSet(c, FindingSet(r.call.finding))
  {
    hide Inv, Extends, MemberSet, Lists, Handle, Next, Answer, Visible;
    var d, f := Next(c, r), r.call.finding;
    RequestKeeps(c, r);
    PinnedFindingAnswer(c, d, rev, f);
    forall x | x in c.core.entities
      ensures Lists(d, f, x) <==> Lists(c, f, x) || exists m :: m in r.call.members && m.0 == x
    {
      RevisionLists(c, r, x);
    }
    forall x | Visible(c, rev, x) && Lists(c, f, x)
      ensures x in MemberSet(c, FindingSet(f))
    {
      ListedIsMember(c, f, x);
    }
    VisibleIsAnEntity(c, rev);
  }

  lemma VisibleIsAnEntity(c: Catalog, rev: nat)
    ensures forall x :: Visible(c, rev, x) ==> x in c.core.entities
  {
  }

  lemma ListedIsMember(c: Catalog, f: Id, x: Id)
    requires Lists(c, f, x)
    ensures x in MemberSet(c, FindingSet(f))
  {
    FindingMembersAre(c, f, x);
    hide FindingMembers;
  }

  lemma RevisionLists(c: Catalog, r: Request, x: Id)
    requires Inv(c) && r.call.ReviseFinding? && Handle(c, r).Commit?
    ensures Lists(Next(c, r), r.call.finding, x) <==>
      Lists(c, r.call.finding, x) || exists m :: m in r.call.members && m.0 == x
  {
    hide Inv, Lists;
    RevisionRows(c, r);
    ListsAfter(c, Next(c, r), r.call.finding, r.call.id, r.call.members, x);
  }

  lemma RevisionRows(c: Catalog, r: Request)
    requires Inv(c) && r.call.ReviseFinding? && Handle(c, r).Commit?
    ensures var row := FindingRow(r.call.finding, RevisedFrom(c, r.call.finding).version + 1,
                                  Some(RevisedFrom(c, r.call.finding).current), Elements(r.call.members));
            r.call.id !in c.details && Next(c, r).details == c.details[r.call.id := row]
  {
    hide Inv, Plan, Apply, Elements, Handle, Next, RevisedFrom, NoDuplicates;
    EntitiesMatchDetails(c);
    CommittedRequest(c, r);
    RevisionPlan(c, r.call);
    RevisionCommitsIff(c, r);
    var row := Plan(c, r.call).state.rows[r.call.id];
    assert c.details + map[r.call.id := row] == c.details[r.call.id := row];
  }

  function RevisedFrom(c: Catalog, f: Id): Finding {
    if f in c.findings then c.findings[f] else Finding("", f, 0)
  }

  lemma RevisionPlan(c: Catalog, call: Call)
    requires call.ReviseFinding? && Plan(c, call).Commit?
    ensures Plan(c, call).state.rows == map[call.id :=
      FindingRow(call.finding, RevisedFrom(c, call.finding).version + 1,
                 Some(RevisedFrom(c, call.finding).current), Elements(call.members))]
  {
    hide Plan, Elements, NoDuplicates, Predecessor, BirthsOf;
    ReviseIsPlanned(c, call);
  }

  lemma ListsAfter(c: Catalog, d: Catalog, f: Id, id: Id, members: seq<(Id, string)>, x: Id)
    requires id !in c.details && id in d.details && d.details == c.details[id := d.details[id]]
    requires d.details[id].FindingRow? && d.details[id].finding == f && d.details[id].members == Elements(members)
    ensures Lists(d, f, x) <==> Lists(c, f, x) || exists m :: m in members && m.0 == x
  {
    if Lists(c, f, x) {
      var r, m :| r in c.details && c.details[r].FindingRow? && c.details[r].finding == f
                  && m in c.details[r].members && m.0 == x;
      assert r in d.details && d.details[r] == c.details[r];
    }
    if m :| m in members && m.0 == x {
      assert m in Elements(members);
      assert m in d.details[id].members;
    }
  }

  /** So pinning does not hold for findings: revising one to list any visible entity that it
      has not named yet commits, and puts that entity into an answer already given. */
  lemma OldEntityEntersPinnedAnswer(c: Catalog, who: Actor, a: Id, f: Id, id: Id, x: Id, role: string, rev: nat)
    requires Inv(c) && f in c.findings && c.findings[f].current.text != ""
    requires a !in c.core.activities && id !in c.core.entities
    requires rev <= c.core.revision && Visible(c, rev, x) && x !in MemberSet(c, FindingSet(f))
    ensures var r := Request(IdempotencyKey("", "", ""), "", ReviseFinding(a, who, f, id, c.findings[f].current, [(x, role)]));
            && Handle(c, r).Commit?
            && RefOf(c, x) !in Answer(c, rev, InFindingQuery(f))
            && RefOf(c, x) in Answer(Next(c, r), rev, InFindingQuery(f))
  {
    var call := ReviseFinding(a, who, f, id, c.findings[f].current, [(x, role)]);
    var r := Request(IdempotencyKey("", "", ""), "", call);
    hide Inv, Handle, Next, MemberSet, Answer, Visible;
    VisibleIsAnEntity(c, rev);
    RevisionCommitsIff(c, r);
    assert call.members[0] == (x, role);
    ListedEntityEnters(c, r, rev, x);
  }

  lemma ListedEntityEnters(c: Catalog, r: Request, rev: nat, x: Id)
    requires Inv(c) && r.call.ReviseFinding? && Handle(c, r).Commit? && rev <= c.core.revision
    requires Visible(c, rev, x) && x !in MemberSet(c, FindingSet(r.call.finding))
    requires exists m :: m in r.call.members && m.0 == x
    ensures RefOf(c, x) !in Answer(c, rev, InFindingQuery(r.call.finding))
    ensures RefOf(c, x) in Answer(Next(c, r), rev, InFindingQuery(r.call.finding))
  {
    hide Inv, Extends, Lists, Handle, Next, MemberSet, Answer, Visible, Viewable, ViewOf;
    RequestKeeps(c, r);
    RevisionLists(c, r, x);
    LeafAnswer(c, Next(c, r), rev, r.call.finding, x);
  }
}
