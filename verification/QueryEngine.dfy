/** The query evaluator: membership sets and views are cached, pages are cut at a moving
    cursor. Both refine the plain meaning of a query. */
module QueryEngine {
  import opened Common
  import opened Order
  import opened Provenance
  import opened Catalog
  import opened CatalogInvariants
  import opened Queries
  import opened QueryMeaning

  // ---- Cache keys ----

  function Prefix(k: SetKey): string {
    match k
    case SelectionSet(_) => "selection:"
    case TreeSet(_) => "tree:"
    case EvidenceSet(_) => "evidence:"
    case FindingSet(_) => "finding:"
    case DescendantSet(_) => "descendant:"
    case StrictAncestors(_) => "strict-ancestor:"
    case StrictDescendants(_) => "strict-descendant:"
  }

  function CacheKey(k: SetKey): string {
    Prefix(k) + k.id.text
  }

  lemma PrefixEndsAtColon(k: SetKey)
    ensures |Prefix(k)| > 0 && forall i :: 0 <= i < |Prefix(k)| ==> (Prefix(k)[i] == ':' <==> i == |Prefix(k)| - 1)
  {
  }

  lemma PrefixLengthsDiffer(j: SetKey, k: SetKey)
    requires |Prefix(j)| == |Prefix(k)| && j.id == k.id
    ensures j == k
  {
  }

  /** Two sets never share a cache entry. */
  lemma CacheKeysAreDistinct(j: SetKey, k: SetKey)
    requires CacheKey(j) == CacheKey(k)
    ensures j == k
  {
    PrefixEndsAtColon(j);
    PrefixEndsAtColon(k);
    hide Prefix;
    var m, n := |Prefix(j)|, |Prefix(k)|;
    assert CacheKey(j)[m - 1] == ':' && CacheKey(k)[n - 1] == ':';
    assert m == n;
    assert j.id.text == CacheKey(j)[m..] && k.id.text == CacheKey(k)[n..];
    PrefixLengthsDiffer(j, k);
  }

  // ---- Evaluation ----

  /** v is the joined row of x, read at a revision that sees x. */
  ghost predicate IsRow(c: Catalog, rev: nat, x: Id, v: View) {
    Visible(c, rev, x) && v == ViewOf(c, x) && v.ref.id == x
  }

  /** One read transaction with its two caches. */
  class Evaluator {
    const cat: Catalog
    const rev: nat
    var membership: map<string, set<Id>>
    var views: map<Id, View>

    /** Cached sets and views equal what they stand for. */
    ghost predicate Valid()
      reads this
    {
      && (forall k {:trigger CacheKey(k)} :: CacheKey(k) in membership ==> membership[CacheKey(k)] == MemberSet(cat, k))
      && (forall x :: x in views ==> IsRow(cat, rev, x, views[x]))
    }

    constructor (c: Catalog, revision: nat)
      ensures Valid() && cat == c && rev == revision && views == map[]
    {
      cat, rev, membership, views := c, revision, map[], map[];
    }

    /** The set behind a membership leaf or a relation, read once per transaction. */
    method Members(k: SetKey) returns (s: set<Id>)
      requires Valid()
      modifies this`membership
      ensures Valid() && s == MemberSet(cat, k)
    {
      hide MemberSet, Prefix;
      if CacheKey(k) in membership {
        return membership[CacheKey(k)];
      }
      s := MemberSet(cat, k);
      forall j | CacheKey(j) == CacheKey(k)
        ensures j == k
      {
        CacheKeysAreDistinct(j, k);
      }
      membership := membership[CacheKey(k) := s];
    }

    /** addEntityViews */
    method AddViews(rows: seq<View>)
      requires Valid()
      requires forall v :: v in rows ==> IsRow(cat, rev, v.ref.id, v)
      modifies this`views
      ensures Valid()
      ensures views.Keys == old(views.Keys) + (set v | v in rows :: v.ref.id)
    {
      hide MemberSet, CacheKey;
      var i := 0;
      while i < |rows|
        invariant 0 <= i <= |rows| && Valid()
        invariant views.Keys == old(views.Keys) + (set v | v in rows[..i] :: v.ref.id)
      {
        assert rows[..i + 1] == rows[..i] + [rows[i]];
        views := views[rows[i].ref.id := rows[i]];
        i := i + 1;
      }
      assert rows[..i] == rows;
    }

    /** loadEntityViewsByIDs: batches of 400 identifiers. */
    method LoadByIds(ids: seq<Id>) returns (rows: seq<View>)
      ensures forall v :: v in rows ==> v.ref.id in ids && IsRow(cat, rev, v.ref.id, v)
      ensures forall x :: x in ids && Visible(cat, rev, x) ==> exists v :: v in rows && v.ref.id == x
    {
      rows := [];
      var start := 0;
      while start < |ids|
        invariant 0 <= start <= |ids|
        invariant forall v :: v in rows ==> v.ref.id in ids && IsRow(cat, rev, v.ref.id, v)
        invariant forall i :: 0 <= i < start && Visible(cat, rev, ids[i]) ==> exists v :: v in rows && v.ref.id == ids[i]
      {
        var end := if start + 400 < |ids| then start + 400 else |ids|;
        var batch := ids[start..end];
        forall i | start <= i < end
          ensures ids[i] in batch
        {
          assert batch[i - start] == ids[i];
        }
        var loaded := RowsFor(cat, rev, set x | x in batch);
        rows := rows + loaded;
        start := end;
      }
    }

    /** matchQuery */
    method MatchQuery(q: Query, v: View) returns (ok: bool)
      requires Valid() && WellFormed(q) && IsRow(cat, rev, v.ref.id, v)
      modifies this
      ensures Valid() && ok == Matches(cat, rev, q, v.ref.id)
      ensures old(views.Keys) <= views.Keys
      decreases q, 1
    {
      hide MemberSet, LeafMatches, ViewOf, CacheKey, Viewable, KeyOf, NeedsValue;
      if IsMembership(q.op) {
        var s := Members(KeyOf(q));
        return v.ref.id in s;
      }
      match q.op {
        case HasAncestor => ok := MatchRelated(q.children[0], v.ref.id, StrictAncestors(v.ref.id));
        case HasDescendant => ok := MatchRelated(q.children[0], v.ref.id, StrictDescendants(v.ref.id));
        case Not =>
          var inner := MatchQuery(q.children[0], v);
          ok := !inner;
        case And => ok := MatchEach(q, v);
        case Or => ok := MatchSome(q, v);
        case _ => ok := LeafMatches(q, v);
      }
    }

    method MatchEach(q: Query, v: View) returns (ok: bool)
      requires Valid() && WellFormed(q) && IsRow(cat, rev, v.ref.id, v)
      modifies this
      ensures Valid() && old(views.Keys) <= views.Keys
      ensures ok <==> forall j :: 0 <= j < |q.children| ==> Matches(cat, rev, q.children[j], v.ref.id)
      decreases q, 0
    {
      hide MemberSet, Matches, ViewOf, CacheKey, Viewable, NodeOk;
      var i := 0;
      while i < |q.children|
        invariant 0 <= i <= |q.children| && Valid() && old(views.Keys) <= views.Keys
        invariant forall j :: 0 <= j < i ==> Matches(cat, rev, q.children[j], v.ref.id)
      {
        ok := MatchQuery(q.children[i], v);
        if !ok {
          return;
        }
        i := i + 1;
      }
      ok := true;
    }

    method MatchSome(q: Query, v: View) returns (ok: bool)
      requires Valid() && WellFormed(q) && IsRow(cat, rev, v.ref.id, v)
      modifies this
      ensures Valid() && old(views.Keys) <= views.Keys
      ensures ok <==> exists j :: 0 <= j < |q.children| && Matches(cat, rev, q.children[j], v.ref.id)
      decreases q, 0
    {
      hide MemberSet, Matches, ViewOf, CacheKey, Viewable, NodeOk;
      var i := 0;
      while i < |q.children|
        invariant 0 <= i <= |q.children| && Valid() && old(views.Keys) <= views.Keys
        invariant forall j :: 0 <= j < i ==> !Matches(cat, rev, q.children[j], v.ref.id)
      {
        ok := MatchQuery(q.children[i], v);
        if ok {
          return;
        }
        i := i + 1;
      }
      ok := false;
    }

    /** matchRelatedQuery: some relative that is visible at the revision matches. */
    method MatchRelated(q: Query, x: Id, k: SetKey) returns (ok: bool)
      requires Valid() && WellFormed(q) && (k == StrictAncestors(x) || k == StrictDescendants(x))
      modifies this
      ensures Valid() && old(views.Keys) <= views.Keys
      ensures ok <==> exists y :: y in MemberSet(cat, k) && Visible(cat, rev, y) && Matches(cat, rev, q, y)
      decreases q, 2
    {
      hide MemberSet, ViewOf, CacheKey, Viewable, WellFormed;
      var members := Members(k);
      var missing := Missing(members);
      if missing != [] {
        var rows := LoadByIds(missing);
        AddViews(rows);
      }
      ghost var loaded := views.Keys;
      assert forall y :: y in members && Visible(cat, rev, y) ==> y in loaded;
      var rest := members;
      while rest != {}
        invariant rest <= members && Valid() && loaded <= views.Keys
        invariant forall y :: y in members - rest && Visible(cat, rev, y) ==> !Matches(cat, rev, q, y)
        decreases rest
      {
        var y :| y in rest;
        rest := rest - {y};
        if y in views {
          ok := MatchQuery(q, views[y]);
          if ok {
            return;
          }
        }
      }
      ok := false;
    }

    method Missing(members: set<Id>) returns (missing: seq<Id>)
      ensures forall x :: x in missing <==> x in members && x !in views
    {
      var rest := members;
      missing := [];
      while rest != {}
        invariant rest <= members
        invariant forall x :: x in missing <==> x in members - rest && x !in views
        decreases rest
      {
        var x :| x in rest;
        if x !in views {
          missing := missing + [x];
        }
        rest := rest - {x};
      }
    }
  }

  /** Joined rows of the visible entities among ids, in key order. */
  method RowsFor(c: Catalog, rev: nat, ids: set<Id>) returns (rows: seq<View>)
    ensures forall v :: v in rows ==> v.ref.id in ids && IsRow(c, rev, v.ref.id, v)
    ensures forall x :: x in ids && Visible(c, rev, x) ==> exists v :: v in rows && v.ref.id == x
  {
    RefLessIsStrictTotal();
    var refs := SortedRows(RefLess, set x | x in ids && Visible(c, rev, x) :: RefOf(c, x));
    forall r | r in refs
      ensures r.id in ids && Visible(c, rev, r.id)
    {
      assert r in Elements(refs);
    }
    rows := ViewsOf(c, refs);
    forall x | x in ids && Visible(c, rev, x)
      ensures exists v :: v in rows && v.ref.id == x
    {
      assert RefOf(c, x) in Elements(refs);
      var i :| 0 <= i < |refs| && refs[i] == RefOf(c, x);
      assert rows[i] == ViewOf(c, x);
    }
  }

  function ViewsOf(c: Catalog, refs: seq<Ref>): (rows: seq<View>)
    requires forall r :: r in refs ==> Viewable(c, r.id)
  {
    seq(|refs|, i requires 0 <= i < |refs| => ViewOf(c, refs[i].id))
  }

  // ---- Whole answers ----

  /** r is the reference of an entity visible at the revision. */
  ghost predicate Seen(c: Catalog, rev: nat, r: Ref) {
    Visible(c, rev, r.id) && RefOf(c, r.id) == r
  }

  ghost predicate Hit(c: Catalog, rev: nat, q: Query, r: Ref) {
    Seen(c, rev, r) && Matches(c, rev, q, r.id)
  }

  lemma AnswerIsHits(c: Catalog, rev: nat, q: Query)
    ensures forall r :: r in Answer(c, rev, q) <==> Hit(c, rev, q, r)
  {
    hide Matches;
  }

  datatype Answered = Answered(revision: nat, entities: seq<Ref>)

  ghost predicate IsAnswer(c: Catalog, rev: nat, q: Query, entities: seq<Ref>) {
    Sorted(RefLess, entities) && Elements(entities) == Answer(c, rev, q)
  }

  /** Query: loads every visible row, then keeps those that match. The sort at its end finds
      the list in order already. */
  method RunQuery(c: Catalog, q: Query) returns (r: Tx<Answered, ()>)
    ensures !Queries.Valid(q) ==> r == Abort(Invalid)
    ensures Queries.Valid(q) ==> r.Commit? && r.state.revision == c.core.revision
    ensures Queries.Valid(q) ==> IsAnswer(c, c.core.revision, q, r.state.entities)
    ensures Queries.Valid(q) && Inv(c) ==>
              Sorted(RefLess, r.state.entities) && forall e :: e in r.state.entities <==> Selects(c, c.core.revision, q, e)
  {
    var ok, _ := ValidateQuery(q, 0, 0);
    if !ok {
      return Abort(Invalid);
    }
    hide Inv, Selects;
    hide Matches, ViewOf, Queries.Valid, WellFormed, Viewable, Evaluator.Valid, RefLess, StringLess, Answer, IsAnswer, Seen, Hit, After;
    var rev := c.core.revision;
    var refs := PageRows(c, rev, NO_CURSOR, 0);
    var out := KeepMatches(c, rev, q, refs);
    AllRowsAnswer(c, rev, q, refs, out);
    if Inv(c) {
      AnswerSelects(c, rev, q, out);
    }
    r := Commit(Answered(rev, out), ());
  }

  lemma AnswerSelects(c: Catalog, rev: nat, q: Query, entities: seq<Ref>)
    requires Inv(c) && Queries.Valid(q) && IsAnswer(c, rev, q, entities)
    ensures Sorted(RefLess, entities) && forall e :: e in entities <==> Selects(c, rev, q, e)
  {
    hide Inv, WellFormed, Answer, Selects, RefLess;
    AnswerMeans(c, rev, q);
    assert forall e :: e in entities <==> e in Elements(entities);
  }

  lemma AllRowsAnswer(c: Catalog, rev: nat, q: Query, refs: seq<Ref>, out: seq<Ref>)
    requires forall r :: Seen(c, rev, r) && After(NO_CURSOR, r) ==> r in refs
    requires Sorted(RefLess, out) && forall r :: r in out <==> r in refs && Hit(c, rev, q, r)
    ensures IsAnswer(c, rev, q, out)
  {
    hide Matches, RefLess, Answer, Visible;
    AnswerIsHits(c, rev, q);
  }

  method KeepMatches(c: Catalog, rev: nat, q: Query, refs: seq<Ref>) returns (out: seq<Ref>)
    requires WellFormed(q) && Sorted(RefLess, refs) && forall r :: r in refs ==> Seen(c, rev, r)
    ensures Sorted(RefLess, out) && forall r :: r in out <==> r in refs && Hit(c, rev, q, r)
  {
    hide Matches, WellFormed, Evaluator.Valid, RefLess, Seen, Hit;
    var e := new Evaluator(c, rev);
    out := [];
    var i := 0;
    while i < |refs|
      invariant 0 <= i <= |refs| && e.Valid() && e.cat == c && e.rev == rev && fresh(e)
      invariant Sorted(RefLess, out) && forall r :: r in out <==> r in refs[..i] && Hit(c, rev, q, r)
    {
      var matched := MatchRow(e, q, refs[i]);
      RowTaken(refs, i);
      if matched {
        out := out + [refs[i]];
      }
      i := i + 1;
    }
    assert refs[..i] == refs;
  }

  lemma RowTaken(refs: seq<Ref>, i: nat)
    requires Sorted(RefLess, refs) && i < |refs|
    ensures forall r :: r in refs[..i + 1] <==> r in refs[..i] || r == refs[i]
    ensures forall r :: r in refs[..i] ==> RefLess(r, refs[i])
  {
    assert refs[..i + 1] == refs[..i] + [refs[i]];
    hide RefLess;
  }

  method MatchRow(e: Evaluator, q: Query, r: Ref) returns (ok: bool)
    requires e.Valid() && WellFormed(q) && Seen(e.cat, e.rev, r)
    modifies e
    ensures e.Valid() && ok == Hit(e.cat, e.rev, q, r)
  {
    hide Matches, WellFormed, Evaluator.Valid;
    ok := e.MatchQuery(q, ViewOf(e.cat, r.id));
  }

  // ---- Pages ----

  /** A position in the (kind, id) order; an empty id is the position before every row. */
  datatype Cursor = Cursor(kind: string, id: string)

  const NO_CURSOR := Cursor("", "")
  const BATCH := 512

  function CursorOf(r: Ref): Cursor {
    Cursor(KindName(r.kind), r.id.text)
  }

  /** The row condition of a page: e.kind>? OR (e.kind=? AND e.id>?). */
  predicate After(at: Cursor, r: Ref) {
    at.id == "" || StringLess(at.kind, KindName(r.kind)) || (at.kind == KindName(r.kind) && StringLess(at.id, r.id.text))
  }

  /** Comparing the stored text of a cursor is comparing references. */
  lemma AfterIsGreater(r: Ref, s: Ref)
    requires r.id.text != ""
    ensures After(CursorOf(r), s) <==> RefLess(r, s)
  {
    StringLessIsStrictTotal();
    hide KindName, StringLess;
    if KindRank(r.kind) < KindRank(s.kind) {
      RankOrdersNames(r.kind, s.kind);
    } else if KindRank(s.kind) < KindRank(r.kind) {
      RankOrdersNames(s.kind, r.kind);
    }
  }

  /** Every identifier the library mints has a non-empty prefix. */
  ghost predicate Named(c: Catalog) {
    forall x :: x in c.core.entities ==> x.text != ""
  }

  /** loadEntityViewsPage: the visible rows after a cursor in key order, limit of them unless
      limit is zero. */
  method PageRows(c: Catalog, rev: nat, at: Cursor, limit: nat) returns (refs: seq<Ref>)
    ensures RowsAfter(c, rev, at, refs) && (limit > 0 ==> |refs| <= limit)
    ensures (exists r :: Seen(c, rev, r) && After(at, r) && r !in refs) ==> |refs| == limit > 0
  {
    hide StringLess, KindName;
    RefLessIsStrictTotal();
    var rows := set x | x in c.core.entities && Visible(c, rev, x) && After(at, RefOf(c, x)) :: RefOf(c, x);
    var all := SortedRows(RefLess, rows);
    forall r
      ensures Seen(c, rev, r) && After(at, r) <==> r in all
    {
      assert r in all <==> r in Elements(all);
    }
    refs := if limit == 0 || |all| <= limit then all else all[..limit];
  }

  lemma AfterMonotone(at: Cursor, r: Ref, s: Ref)
    requires After(at, r) && RefLess(r, s)
    ensures After(at, s)
  {
    StringLessIsStrictTotal();
    hide KindName, StringLess;
    if KindRank(r.kind) < KindRank(s.kind) {
      RankOrdersNames(r.kind, s.kind);
    }
  }

  /** What a call of PageRows read: rows after a cursor, with nothing skipped. */
  ghost predicate RowsAfter(c: Catalog, rev: nat, at: Cursor, refs: seq<Ref>) {
    && Sorted(RefLess, refs)
    && (forall r :: r in refs ==> Seen(c, rev, r) && After(at, r))
    && (forall r, s :: Seen(c, rev, r) && After(at, r) && r !in refs && s in refs ==> RefLess(s, r))
  }

  /** Moving the cursor to a row read leaves exactly the rows read up to it behind. */
  lemma CursorMoves(c: Catalog, rev: nat, at: Cursor, refs: seq<Ref>, i: nat, r: Ref)
    requires Named(c) && RowsAfter(c, rev, at, refs) && 0 < i <= |refs| && Seen(c, rev, r)
    ensures After(CursorOf(refs[i - 1]), r) <==> After(at, r) && r !in refs[..i]
  {
    var last := refs[i - 1];
    assert Seen(c, rev, last) && last.id in c.core.entities;
    AfterIsGreater(last, r);
    RefLessIsStrictTotal();
    hide RefLess, After, CursorOf, Visible;
    if RefLess(last, r) {
      AfterMonotone(at, last, r);
    }
    if r in refs {
      var j :| 0 <= j < |refs| && refs[j] == r;
      assert j < i ==> refs[..i][j] == r;
      assert j < i - 1 ==> RefLess(r, last);
      assert j > i - 1 ==> RefLess(last, r);
    }
  }

  datatype PageSpec = PageSpec(query: Query, revision: int, limit: int, after: Cursor)
  datatype Page = Page(revision: nat, entities: seq<Ref>, next: Cursor)

  /** What a page must be asked for: a valid query, at most 10000 entities, a whole cursor or
      none, and a revision the case has reached; zero stands for the current one. */
  predicate PageAccepted(c: Catalog, spec: PageSpec) {
    && Queries.Valid(spec.query) && spec.limit <= 10000
    && (spec.after.id == "" <==> spec.after.kind == "")
    && spec.revision <= c.core.revision
    && (spec.revision >= 1 || (spec.revision == 0 && c.core.revision >= 1))
  }

  /** The entities are the first hits after the cursor, at most limit of them; next is the
      last of them if the page is full and empty if nothing is left. */
  ghost predicate PageOk(c: Catalog, rev: nat, q: Query, limit: nat, at: Cursor, page: Page) {
    && page.revision == rev && Sorted(RefLess, page.entities)
    && (forall r :: r in page.entities <==> Hit(c, rev, q, r) && After(at, r) && (page.next.id == "" || !After(page.next, r)))
    && (if page.next == NO_CURSOR then |page.entities| < limit
        else page.next.id != "" && |page.entities| == limit > 0 && page.next == CursorOf(page.entities[limit - 1]))
  }

  /** One batch of rows: appends hits until the page is full. */
  method ScanBatch(e: Evaluator, q: Query, refs: seq<Ref>, limit: nat, page: seq<Ref>) returns (out: seq<Ref>, i: nat)
    requires e.Valid() && WellFormed(q) && refs != [] && |page| < limit && Sorted(RefLess, page)
    requires forall r :: r in refs ==> Seen(e.cat, e.rev, r)
    requires Sorted(RefLess, refs) && forall r, s :: r in page && s in refs ==> RefLess(r, s)
    modifies e
    ensures e.Valid() && 0 < i <= |refs| && Sorted(RefLess, out)
    ensures forall r :: r in out <==> r in page || (r in refs[..i] && Hit(e.cat, e.rev, q, r))
    ensures (|out| == limit && out[limit - 1] == refs[i - 1]) || (|out| < limit && i == |refs|)
  {
    hide Matches, WellFormed, Evaluator.Valid, RefLess, Visible;
    out, i := page, 0;
    while i < |refs|
      invariant 0 <= i <= |refs| && e.Valid() && |out| < limit && Sorted(RefLess, out)
      invariant forall r :: r in out <==> r in page || (r in refs[..i] && Hit(e.cat, e.rev, q, r))
    {
      var matched := MatchRow(e, q, refs[i]);
      RowTaken(refs, i);
      i := i + 1;
      if matched {
        out := out + [refs[i - 1]];
        if |out| == limit {
          return;
        }
      }
    }
  }

  /** What a served page is: at the revision asked for, no longer than asked for, and holding
      the first of the entities the query selects there, after the cursor. */
  ghost predicate PageServes(c: Catalog, spec: PageSpec, page: Page) {
    && (if spec.revision == 0 then page.revision == c.core.revision else page.revision == spec.revision)
    && |page.entities| <= (if spec.limit > 0 then spec.limit else 1000)
    && PageOk(c, page.revision, spec.query, if spec.limit > 0 then spec.limit else 1000, spec.after, page)
  }

  /** QueryPage */
  method QueryPage(c: Catalog, spec: PageSpec) returns (r: Tx<Page, ()>)
    requires Named(c)
    ensures !PageAccepted(c, spec) ==> r == Abort(Invalid)
    ensures PageAccepted(c, spec) ==> r.Commit? && PageServes(c, spec, r.state)
    ensures r.Commit? && Inv(c) ==> forall e :: e in r.state.entities ==> Selects(c, r.state.revision, spec.query, e)
  {
    hide Inv, Selects;
    var q := spec.query;
    var ok, _ := ValidateQuery(q, 0, 0);
    if !ok {
      return Abort(Invalid);
    }
    var limit := if spec.limit <= 0 then 1000 else spec.limit;
    if limit > 10000 || (spec.after.id == "") != (spec.after.kind == "") {
      return Abort(Invalid);
    }
    var rev := spec.revision;
    if rev == 0 {
      rev := c.core.revision;
    }
    if rev < 1 || rev > c.core.revision {
      return Abort(Invalid);
    }
    var page := FillPage(c, rev, q, limit, spec.after);
    if Inv(c) {
      PageSelects(c, rev, q, limit, spec.after, page);
    }
    r := Commit(page, ());
  }

  /** A page at a revision holds nothing that was made later or that the query does not select. */
  lemma PageSelects(c: Catalog, rev: nat, q: Query, limit: nat, at: Cursor, page: Page)
    requires Inv(c) && WellFormed(q) && PageOk(c, rev, q, limit, at, page)
    ensures forall e :: e in page.entities ==> Selects(c, rev, q, e)
  {
    hide Inv, Hit, Answer, Selects, WellFormed, RefLess, After;
    AnswerMeans(c, rev, q);
    AnswerIsHits(c, rev, q);
  }

  method FillPage(c: Catalog, rev: nat, q: Query, limit: nat, start: Cursor) returns (page: Page)
    requires Named(c) && WellFormed(q) && limit > 0 && (start.id == "" ==> start == NO_CURSOR)
    ensures PageOk(c, rev, q, limit, start, page)
  {
    hide Matches, WellFormed, Evaluator.Valid, RefLess, After, CursorOf;
    var e := new Evaluator(c, rev);
    var at := start;
    var out: seq<Ref> := [];
    while |out| < limit
      invariant e.Valid() && e.cat == c && e.rev == rev && fresh(e)
      invariant |out| < limit && Sorted(RefLess, out)
      invariant Collected(c, rev, q, start, at, out)
      decreases Ahead(c, rev, at)
    {
      var refs := PageRows(c, rev, at, BATCH);
      if refs == [] {
        break;
      }
      var i;
      OldBeforeNew(c, rev, q, start, at, out, refs);
      ghost var before := out;
      out, i := ScanBatch(e, q, refs, limit, out);
      CollectedMoves(c, rev, q, start, at, before, refs, i, out);
      AheadShrinks(c, rev, at, refs, i);
      at := CursorOf(refs[i - 1]);
      if |out| == limit {
        return Page(rev, out, at);
      }
      if |refs| < BATCH {
        break;
      }
    }
    page := Page(rev, out, NO_CURSOR);
  }

  /** Every hit between the start and the moving cursor has been collected. */
  ghost predicate Collected(c: Catalog, rev: nat, q: Query, start: Cursor, at: Cursor, out: seq<Ref>) {
    && (forall r :: r in out <==> Hit(c, rev, q, r) && After(start, r) && !After(at, r))
    && (forall r :: Seen(c, rev, r) && After(at, r) ==> After(start, r))
  }

  function Ahead(c: Catalog, rev: nat, at: Cursor): set<Id> {
    set x | x in c.core.entities && Visible(c, rev, x) && After(at, RefOf(c, x))
  }

  lemma AheadShrinks(c: Catalog, rev: nat, at: Cursor, refs: seq<Ref>, i: nat)
    requires Named(c) && RowsAfter(c, rev, at, refs) && 0 < i <= |refs|
    ensures Ahead(c, rev, CursorOf(refs[i - 1])) < Ahead(c, rev, at) && CursorOf(refs[i - 1]).id != ""
  {
    CursorIsNamed(c, rev, refs[i - 1]);
    hide After, CursorOf, RefLess;
    var next := CursorOf(refs[i - 1]);
    forall x | x in Ahead(c, rev, next)
      ensures x in Ahead(c, rev, at)
    {
      CursorMoves(c, rev, at, refs, i, RefOf(c, x));
    }
    var last := refs[i - 1];
    assert last in refs[..i];
    CursorMoves(c, rev, at, refs, i, last);
    assert last.id in Ahead(c, rev, at) && last.id !in Ahead(c, rev, next);
  }

  lemma CursorIsNamed(c: Catalog, rev: nat, r: Ref)
    requires Named(c) && Seen(c, rev, r)
    ensures CursorOf(r).id != ""
  {
  }

  lemma OldBeforeNew(c: Catalog, rev: nat, q: Query, start: Cursor, at: Cursor, out: seq<Ref>, refs: seq<Ref>)
    requires Collected(c, rev, q, start, at, out) && RowsAfter(c, rev, at, refs)
    ensures forall r, s :: r in out && s in refs ==> RefLess(r, s)
  {
    RefLessIsStrictTotal();
    hide After, RefLess, Matches;
    forall r, s | r in out && s in refs
      ensures RefLess(r, s)
    {
      if RefLess(s, r) {
        AfterMonotone(at, s, r);
      }
    }
  }

  lemma CollectedMoves(c: Catalog, rev: nat, q: Query, start: Cursor, at: Cursor, page: seq<Ref>, refs: seq<Ref>, i: nat, out: seq<Ref>)
    requires Named(c) && Collected(c, rev, q, start, at, page) && RowsAfter(c, rev, at, refs) && 0 < i <= |refs|
    requires forall r :: r in out <==> r in page || (r in refs[..i] && Hit(c, rev, q, r))
    ensures Collected(c, rev, q, start, CursorOf(refs[i - 1]), out)
  {
    hide After, RefLess, Matches, CursorOf, Visible;
    var next := CursorOf(refs[i - 1]);
    forall r | Seen(c, rev, r)
      ensures After(next, r) <==> After(at, r) && r !in refs[..i]
      ensures r in refs[..i] ==> After(at, r)
    {
      CursorMoves(c, rev, at, refs, i, r);
      assert r in refs[..i] ==> r in refs;
    }
  }

  // ---- Traversals ----

  /** A traversal: each page starts at the cursor the one before returned, all at one
      revision, each read from a catalog at least as late as the one before. */
  ghost predicate Traversal(cats: seq<Catalog>, rev: nat, q: Query, limit: nat, start: Cursor, pages: seq<Page>)
    requires |cats| == |pages|
    decreases |pages|
  {
    pages != [] && PageOk(cats[0], rev, q, limit, start, pages[0])
    && (if pages[0].next == NO_CURSOR then |pages| == 1
        else Traversal(cats[1..], rev, q, limit, pages[0].next, pages[1..]))
  }

  /** The caller asks for the first page without a cursor and for each further one with the
      revision and the cursor that the page before returned. */
  ghost predicate Follows(specs: seq<PageSpec>, pages: seq<Page>) {
    && specs != [] && |specs| == |pages| && specs[0].after == NO_CURSOR
    && forall k :: 0 < k < |specs| ==> specs[k] == specs[k - 1].(revision := pages[k - 1].revision, after := pages[k - 1].next)
  }

  /** Following the pages until one has no cursor is a traversal at one revision. */
  lemma {:induction false} CallsAreTraversal(cats: seq<Catalog>, specs: seq<PageSpec>, pages: seq<Page>)
    requires |cats| == |pages| && Follows(specs, pages)
    requires forall k :: 0 <= k < |specs| ==> pages[k].revision >= 1 && PageServes(cats[k], specs[k], pages[k])
    requires forall k :: 0 <= k < |specs| ==> (pages[k].next == NO_CURSOR <==> k == |specs| - 1)
    ensures Traversal(cats, pages[0].revision, specs[0].query, if specs[0].limit > 0 then specs[0].limit else 1000, NO_CURSOR, pages)
  {
    hide PageOk, PageServes;
    var limit := if specs[0].limit > 0 then specs[0].limit else 1000;
    forall k | 0 <= k < |specs|
      ensures PageOk(cats[k], pages[0].revision, specs[0].query, limit, specs[k].after, pages[k])
    {
      PinnedCall(cats, specs, pages, k);
      ServedPage(cats[k], specs[k], pages[k]);
    }
    TraversalOf(cats, specs, pages, limit, 0);
    assert cats[0..] == cats && pages[0..] == pages;
  }

  lemma ServedPage(c: Catalog, spec: PageSpec, page: Page)
    requires PageServes(c, spec, page)
    ensures spec.revision != 0 ==> page.revision == spec.revision
    ensures PageOk(c, page.revision, spec.query, if spec.limit > 0 then spec.limit else 1000, spec.after, page)
  {
    hide PageOk;
  }

  lemma {:induction false} PinnedCall(cats: seq<Catalog>, specs: seq<PageSpec>, pages: seq<Page>, n: nat)
    requires |cats| == |pages| && Follows(specs, pages) && n < |specs|
    requires forall k :: 0 <= k < |specs| ==> pages[k].revision >= 1 && PageServes(cats[k], specs[k], pages[k])
    ensures pages[n].revision == pages[0].revision && specs[n].query == specs[0].query && specs[n].limit == specs[0].limit
    decreases n
  {
    hide PageServes;
    if n > 0 {
      PinnedCall(cats, specs, pages, n - 1);
      ServedPage(cats[n], specs[n], pages[n]);
    }
  }

  lemma {:induction false} TraversalOf(cats: seq<Catalog>, specs: seq<PageSpec>, pages: seq<Page>, limit: nat, n: nat)
    requires |cats| == |pages| && Follows(specs, pages) && n < |specs|
    requires forall k :: 0 <= k < |specs| ==> (pages[k].next == NO_CURSOR <==> k == |specs| - 1)
    requires forall k :: 0 <= k < |specs| ==>
      PageOk(cats[k], pages[0].revision, specs[0].query, limit, specs[k].after, pages[k])
    ensures Traversal(cats[n..], pages[0].revision, specs[0].query, limit, specs[n].after, pages[n..])
    decreases |specs| - n
  {
    hide PageOk;
    if n < |specs| - 1 {
      TraversalOf(cats, specs, pages, limit, n + 1);
      assert cats[n..][1..] == cats[n + 1..] && pages[n..][1..] == pages[n + 1..];
      assert specs[n + 1].after == pages[n].next;
    }
  }

  function Concatenated(pages: seq<Page>): seq<Ref> {
    if pages == [] then [] else pages[0].entities + Concatenated(pages[1..])
  }

  /** d answers the query at the revision as c does. */
  ghost predicate SameHits(c: Catalog, d: Catalog, rev: nat, q: Query) {
    forall r :: Hit(c, rev, q, r) <==> Hit(d, rev, q, r)
  }

  /** Every catalog read by the traversal does. */
  ghost predicate Steady(c: Catalog, cats: seq<Catalog>, rev: nat, q: Query) {
    forall d :: d in cats ==> SameHits(c, d, rev, q)
  }

  /** Writers extend the case during the traversal without unsettling the query. */
  ghost predicate LaterSettled(c: Catalog, cats: seq<Catalog>, rev: nat, q: Query) {
    forall d :: d in cats ==> Inv(d) && Extends(c, d) && Settled(c, d, rev, q)
  }

  lemma SettledIsSteady(c: Catalog, cats: seq<Catalog>, rev: nat, q: Query)
    requires Inv(c) && rev <= c.core.revision && LaterSettled(c, cats, rev, q)
    ensures Steady(c, cats, rev, q)
  {
    hide Inv, Extends, Settled, Hit, Answer;
    forall d | d in cats
      ensures SameHits(c, d, rev, q)
    {
      SettledAnswer(c, d, rev, q);
      AnswerIsHits(c, rev, q);
      AnswerIsHits(d, rev, q);
    }
  }

  lemma BeforeTheCursor(at: Cursor, r: Ref, s: Ref)
    requires !After(at, r) && After(at, s)
    ensures RefLess(r, s)
  {
    RefLessIsStrictTotal();
    hide After, RefLess;
    if RefLess(s, r) {
      AfterMonotone(at, s, r);
    }
  }

  lemma NextIsLater(start: Cursor, last: Ref, r: Ref)
    requires last.id.text != "" && After(start, last) && After(CursorOf(last), r)
    ensures After(start, r)
  {
    AfterIsGreater(last, r);
    hide After, RefLess;
    AfterMonotone(start, last, r);
  }

  lemma JoinPages(c: Catalog, rev: nat, q: Query, limit: nat, start: Cursor, page: Page, rest: seq<Ref>)
    requires PageOk(c, rev, q, limit, start, page) && page.next != NO_CURSOR
    requires Sorted(RefLess, rest) && forall r :: r in rest <==> Hit(c, rev, q, r) && After(page.next, r)
    ensures Sorted(RefLess, page.entities + rest) && |page.entities| == limit
    ensures forall r :: r in page.entities + rest <==> Hit(c, rev, q, r) && After(start, r)
  {
    hide Hit, RefLess, After;
    forall r, s | r in page.entities && s in rest
      ensures RefLess(r, s)
    {
      BeforeTheCursor(page.next, r, s);
    }
    SortedAppend(RefLess, page.entities, rest);
    forall r | After(page.next, r)
      ensures After(start, r)
    {
      assert page.entities[limit - 1] in page.entities;
      NextIsLater(start, page.entities[limit - 1], r);
    }
  }

  lemma PageIsSteady(c: Catalog, d: Catalog, rev: nat, q: Query, limit: nat, start: Cursor, page: Page)
    requires SameHits(c, d, rev, q) && PageOk(d, rev, q, limit, start, page)
    ensures PageOk(c, rev, q, limit, start, page)
  {
    hide Hit, RefLess, After;
  }

  /** Following Next at one revision, over catalogs that agree on the answer there, and joining
      the pages gives the whole answer after the start once, in order, in at most one page more
      than full pages. */
  lemma {:induction false} TraversalFrom(c: Catalog, cats: seq<Catalog>, rev: nat, q: Query, limit: nat, start: Cursor, pages: seq<Page>)
    requires |cats| == |pages| && Steady(c, cats, rev, q) && Traversal(cats, rev, q, limit, start, pages)
    ensures Sorted(RefLess, Concatenated(pages))
    ensures forall r :: r in Concatenated(pages) <==> Hit(c, rev, q, r) && After(start, r)
    ensures (|pages| - 1) * limit <= |Concatenated(pages)|
    decreases |pages|
  {
    hide PageOk, Hit, RefLess, After, SameHits;
    var page := pages[0];
    PageIsSteady(c, cats[0], rev, q, limit, start, page);
    if page.next == NO_CURSOR {
      LastPage(c, rev, q, limit, start, pages);
    } else {
      TraversalFrom(c, cats[1..], rev, q, limit, page.next, pages[1..]);
      JoinPages(c, rev, q, limit, start, page, Concatenated(pages[1..]));
      assert (|pages| - 1) * limit == limit + (|pages[1..]| - 1) * limit;
    }
  }

  lemma LastPage(c: Catalog, rev: nat, q: Query, limit: nat, start: Cursor, pages: seq<Page>)
    requires |pages| == 1 && PageOk(c, rev, q, limit, start, pages[0]) && pages[0].next == NO_CURSOR
    ensures Sorted(RefLess, Concatenated(pages))
    ensures forall r :: r in Concatenated(pages) <==> Hit(c, rev, q, r) && After(start, r)
  {
    hide Hit, RefLess, After;
    assert Concatenated(pages) == pages[0].entities + Concatenated([]);
  }

  /** Such a traversal returns what one Query returns at that revision. */
  lemma PagesEqualQuery(c: Catalog, cats: seq<Catalog>, rev: nat, q: Query, limit: nat, pages: seq<Page>, whole: seq<Ref>)
    requires |cats| == |pages| && Steady(c, cats, rev, q) && Traversal(cats, rev, q, limit, NO_CURSOR, pages)
    requires IsAnswer(c, rev, q, whole)
    ensures Concatenated(pages) == whole
  {
    hide Hit, RefLess, Answer, Steady;
    TraversalFrom(c, cats, rev, q, limit, NO_CURSOR, pages);
    AnswerIsHits(c, rev, q);
    RefLessIsStrictTotal();
    var all := Concatenated(pages);
    forall r
      ensures r in Elements(all) <==> r in Elements(whole)
    {
      assert r in Elements(whole) <==> r in Answer(c, rev, q);
    }
    SortedUnique(RefLess, all, whole);
  }

  /** With no writer active the pages of any query are its answer. */
  lemma QuietPages(c: Catalog, rev: nat, q: Query, limit: nat, pages: seq<Page>, whole: seq<Ref>)
    requires Traversal(seq(|pages|, i => c), rev, q, limit, NO_CURSOR, pages) && IsAnswer(c, rev, q, whole)
    ensures Concatenated(pages) == whole
  {
    hide Hit, IsAnswer, Traversal;
    var cats := seq(|pages|, i => c);
    assert forall d :: d in cats ==> d == c;
    PagesEqualQuery(c, cats, rev, q, limit, pages, whole);
  }

  /** With writers active they are too, if no finding of the query lists an old entity anew and
      no selection it names is stored meanwhile over old entities; a query that names no finding
      and only stored selections needs no such condition. */
  lemma PagesWhileWriting(c: Catalog, cats: seq<Catalog>, rev: nat, q: Query, limit: nat, pages: seq<Page>, whole: seq<Ref>)
    requires Inv(c) && rev <= c.core.revision && |cats| == |pages|
    requires LaterSettled(c, cats, rev, q) || (Pinnable(c, q) && forall d :: d in cats ==> Inv(d) && Extends(c, d))
    requires Traversal(cats, rev, q, limit, NO_CURSOR, pages) && IsAnswer(c, rev, q, whole)
    ensures Concatenated(pages) == whole
  {
    hide Inv, Extends, Settled, IsAnswer, Traversal;
    if !LaterSettled(c, cats, rev, q) {
      forall d | d in cats
        ensures Settled(c, d, rev, q)
      {
        PinnableIsSettled(c, d, rev, q);
      }
    }
    SettledIsSteady(c, cats, rev, q);
    PagesEqualQuery(c, cats, rev, q, limit, pages, whole);
  }

  // ---- Freeze ----

  function IdsOf(refs: seq<Ref>): seq<Id> {
    seq(|refs|, i requires 0 <= i < |refs| => refs[i].id)
  }

  /** Freeze records an answer in a later transaction than the one that computed it. Whatever
      was committed in between, the insert goes through and stores the answer unchanged. */
  lemma FreezeStoresAnswer(c: Catalog, d: Catalog, q: Query, entities: seq<Ref>, a: Id, who: Actor, s: Id)
    requires Inv(c) && Inv(d) && Extends(c, d) && IsAnswer(c, c.core.revision, q, entities)
    requires a !in d.core.activities && s !in d.core.entities
    ensures var r := ApplyCall(d, Freeze(a, who, s, c.core.revision, IdsOf(entities)));
            r.Commit? && s in r.state.details && r.state.details[s] == SelectionRow(c.core.revision, entities)
  {
    hide Inv, Extends, ApplyCall, IsAnswer, NoDuplicates;
    var ids := IdsOf(entities);
    forall i | 0 <= i < |entities|
      ensures ids[i] in d.core.entities && RefOf(d, ids[i]) == entities[i]
    {
      AnsweredEntityStays(c, d, q, entities, i);
    }
    assert NoDuplicates(ids) by {
      assert Sorted(RefLess, entities) by {
        AnswerIsSorted(c, q, entities);
      }
      DistinctIds(d, entities);
    }
    assert RefsOf(d, ids) == entities;
    FreezeCommits(d, a, who, s, c.core.revision, ids);
  }

  lemma AnswerIsSorted(c: Catalog, q: Query, entities: seq<Ref>)
    requires IsAnswer(c, c.core.revision, q, entities)
    ensures Sorted(RefLess, entities)
  {
  }

  lemma AnsweredEntityStays(c: Catalog, d: Catalog, q: Query, entities: seq<Ref>, i: nat)
    requires Extends(c, d) && IsAnswer(c, c.core.revision, q, entities) && i < |entities|
    ensures entities[i].id in d.core.entities && RefOf(d, entities[i].id) == entities[i]
  {
    AnswerIsHits(c, c.core.revision, q);
    hide Matches, Answer, RefLess;
    assert entities[i] in Elements(entities);
  }

  lemma DistinctIds(d: Catalog, entities: seq<Ref>)
    requires Sorted(RefLess, entities)
    requires forall i :: 0 <= i < |entities| ==> entities[i].id in d.core.entities && RefOf(d, entities[i].id) == entities[i]
    ensures NoDuplicates(IdsOf(entities))
  {
    RefLessIsStrictTotal();
    hide RefLess;
    var ids := IdsOf(entities);
    forall i, j | 0 <= i < j < |ids|
      ensures ids[i] != ids[j]
    {
      assert RefLess(entities[i], entities[j]);
    }
  }

  lemma FreezeCommits(d: Catalog, a: Id, who: Actor, s: Id, observed: nat, ids: seq<Id>)
    requires AllExist(d, ids) && NoDuplicates(ids) && a !in d.core.activities && s !in d.core.entities
    ensures var r := ApplyCall(d, Freeze(a, who, s, observed, ids));
            r.Commit? && s in r.state.details && r.state.details[s] == SelectionRow(observed, RefsOf(d, ids))
  {
    hide NoDuplicates, RefsOf, Plan, OneShotRows, BirthsOf, DetailsOf;
    FreezeIsPlanned(d, a, who, s, observed, ids);
    var uses := set m | m in ids :: (m, "member");
    var row := NewRow(Birth(Kind.Selection, "", "", "selection"), SelectionRow(observed, RefsOf(d, ids)));
    BirthsMatch(map[s := row]);
    OneRowEffect(a, who, uses, s, row);
    assert BirthsOf(map[s := row]).Keys * d.core.entities.Keys == {};
    assert forall u :: u in uses ==> u.0 in d.core.entities;
  }

  lemma FreezeIsPlanned(d: Catalog, a: Id, who: Actor, s: Id, observed: nat, ids: seq<Id>)
    ensures Plan(d, Freeze(a, who, s, observed, ids)) == PlanFreeze(d, a, who, s, observed, ids)
  {
    hide PlanFreeze;
  }

  lemma OneRowEffect(a: Id, who: Actor, uses: set<(Id, string)>, s: Id, row: NewRow)
    ensures var eff := OneShotRows(a, who, uses, map[s := row]);
            eff.step == OpOneShot(a, who, uses, BirthsOf(map[s := row])) && eff.rows == map[s := row.detail]
  {
    hide BirthsOf;
  }
}
