/** Strict orders on strings and on pairs of strings, and strictly sorted sequences.
    They stand for SQLite's ORDER BY under the BINARY collation and for Go's sort.Strings
    and sort.Slice with a (kind, id) comparison. */
module Order {
  import opened Common

  predicate StringLess(a: string, b: string) {
    b != "" && (a == "" || a[0] < b[0] || (a[0] == b[0] && StringLess(a[1..], b[1..])))
  }

  lemma {:induction false} StringLessIrreflexive(a: string)
    ensures !StringLess(a, a)
  {
    if a != "" {
      StringLessIrreflexive(a[1..]);
    }
  }

  lemma {:induction false} StringLessTransitive(a: string, b: string, c: string)
    requires StringLess(a, b) && StringLess(b, c)
    ensures StringLess(a, c)
  {
    if a != "" && a[0] == b[0] == c[0] {
      StringLessTransitive(a[1..], b[1..], c[1..]);
    }
  }

  lemma {:induction false} StringLessTotal(a: string, b: string)
    ensures a == b || StringLess(a, b) || StringLess(b, a)
  {
    if a != "" && b != "" && a[0] == b[0] {
      StringLessTotal(a[1..], b[1..]);
      assert a == [a[0]] + a[1..] && b == [b[0]] + b[1..];
    }
  }

  /** An identifier such as act_0190..; the text is what SQLite stores and compares. */
  datatype Id = Id(text: string)

  predicate IdLess(a: Id, b: Id) {
    StringLess(a.text, b.text)
  }

  /** The kinds of entities, in the order of their names. */
  datatype Kind = Artifact | Assertion | Deliverable | Evidence | FindingRevision
                | Manifest | Object | Projection | Selection | SourceTree

  function KindName(k: Kind): string {
    match k
    case Artifact => "artifact"
    case Assertion => "assertion"
    case Deliverable => "deliverable"
    case Evidence => "evidence"
    case FindingRevision => "finding_revision"
    case Manifest => "manifest"
    case Object => "object"
    case Projection => "projection"
    case Selection => "selection"
    case SourceTree => "source_tree"
  }

  /** The kind of a stored row, if its name is one. */
  function KindOfName(name: string): Option<Kind> {
    if name == "evidence" then Some(Evidence)
    else if name == "source_tree" then Some(SourceTree)
    else if name == "object" then Some(Object)
    else if name == "artifact" then Some(Artifact)
    else if name == "assertion" then Some(Assertion)
    else if name == "finding_revision" then Some(FindingRevision)
    else if name == "selection" then Some(Selection)
    else if name == "projection" then Some(Projection)
    else if name == "manifest" then Some(Manifest)
    else if name == "deliverable" then Some(Deliverable)
    else None
  }

  /** A stored name is read as a kind exactly if it is what that kind is written as. */
  lemma NamesAreRead(name: string, k: Kind)
    ensures KindOfName(name) == Some(k) <==> name == KindName(k)
  {
    assert |KindName(Artifact)| == 8 && |KindName(Evidence)| == 8 && KindName(Artifact)[0] != KindName(Evidence)[0];
    assert |KindName(Assertion)| == 9 && |KindName(Selection)| == 9 && KindName(Assertion)[0] != KindName(Selection)[0];
    assert |KindName(Deliverable)| == 11 && |KindName(SourceTree)| == 11 && KindName(Deliverable)[0] != KindName(SourceTree)[0];
  }

  function KindRank(k: Kind): nat {
    match k
    case Artifact => 0
    case Assertion => 1
    case Deliverable => 2
    case Evidence => 3
    case FindingRevision => 4
    case Manifest => 5
    case Object => 6
    case Projection => 7
    case Selection => 8
    case SourceTree => 9
  }

  function KindOfRank(n: nat): (k: Kind)
    requires n < 10
    ensures KindRank(k) == n
  {
    [Artifact, Assertion, Deliverable, Evidence, FindingRevision, Manifest, Object, Projection, Selection, SourceTree][n]
  }

  /** Comparing ranks is comparing names. */
  lemma {:induction false} RankOrdersNames(a: Kind, b: Kind)
    requires KindRank(a) < KindRank(b)
    ensures StringLess(KindName(a), KindName(b))
    decreases KindRank(b)
  {
    var c := KindOfRank(KindRank(b) - 1);
    assert StringLess(KindName(c), KindName(b)) by {
      NextNameIsGreater(c, b);
    }
    if KindRank(a) < KindRank(c) {
      RankOrdersNames(a, c);
      StringLessTransitive(KindName(a), KindName(c), KindName(b));
    } else {
      assert a == c;
    }
  }

  lemma NextNameIsGreater(a: Kind, b: Kind)
    requires KindRank(b) == KindRank(a) + 1
    ensures StringLess(KindName(a), KindName(b))
  {
    match a {
      case Artifact => assert "artifact"[1..][0] < "assertion"[1..][0];
      case Selection => assert "selection"[1..][0] < "source_tree"[1..][0];
      case _ =>
    }
  }

  /** An entity reference; every listing is sorted by (kind, id). */
  datatype Ref = Ref(kind: Kind, id: Id)

  predicate RefLess(a: Ref, b: Ref) {
    KindRank(a.kind) < KindRank(b.kind) || (a.kind == b.kind && StringLess(a.id.text, b.id.text))
  }

  ghost predicate StrictTotal<T(!new)>(less: (T, T) -> bool) {
    && (forall a :: !less(a, a))
    && (forall a, b, c :: less(a, b) && less(b, c) ==> less(a, c))
    && (forall a, b :: a == b || less(a, b) || less(b, a))
  }

  lemma StringLessIsStrictTotal()
    ensures StrictTotal(StringLess)
  {
    forall a: string ensures !StringLess(a, a) {
      StringLessIrreflexive(a);
    }
    forall a: string, b: string, c: string | StringLess(a, b) && StringLess(b, c)
      ensures StringLess(a, c)
    {
      StringLessTransitive(a, b, c);
    }
    forall a: string, b: string
      ensures a == b || StringLess(a, b) || StringLess(b, a)
    {
      StringLessTotal(a, b);
    }
  }

  lemma IdLessIsStrictTotal()
    ensures StrictTotal(IdLess)
  {
    StringLessIsStrictTotal();
    hide StringLess;
  }

  lemma RefLessIsStrictTotal()
    ensures StrictTotal(RefLess)
  {
    StringLessIsStrictTotal();
  }

  ghost predicate Sorted<T(!new)>(less: (T, T) -> bool, s: seq<T>) {
    forall i, j :: 0 <= i < j < |s| ==> less(s[i], s[j])
  }

  function Elements<T>(s: seq<T>): (r: set<T>)
    ensures s != [] ==> s[0] in r
  {
    set x | x in s
  }

  /** Two strictly sorted listings of one set are the same listing. */
  lemma {:induction false} SortedUnique<T(!new)>(less: (T, T) -> bool, s: seq<T>, t: seq<T>)
    requires StrictTotal(less)
    requires Sorted(less, s) && Sorted(less, t)
    requires Elements(s) == Elements(t)
    ensures s == t
  {
    if s == [] {
      assert Elements(t) == {};
    } else {
      assert s[0] in Elements(t);
      var i :| 0 <= i < |t| && t[i] == s[0];
      assert t[0] in Elements(s);
      var j :| 0 <= j < |s| && s[j] == t[0];
      assert s[0] == t[0];
      SortedRest(less, s);
      SortedRest(less, t);
      SortedUnique(less, s[1..], t[1..]);
    }
  }

  lemma SortedRest<T(!new)>(less: (T, T) -> bool, s: seq<T>)
    requires StrictTotal(less) && Sorted(less, s) && s != []
    ensures Sorted(less, s[1..]) && Elements(s[1..]) == Elements(s) - {s[0]}
  {
    forall x | x in Elements(s) - {s[0]}
      ensures x in s[1..]
    {
      var i :| 0 <= i < |s| && s[i] == x;
      assert s[1..][i - 1] == x;
    }
  }

  lemma SortedAppend<T(!new)>(less: (T, T) -> bool, s: seq<T>, t: seq<T>)
    requires Sorted(less, s) && Sorted(less, t)
    requires forall x, y :: x in s && y in t ==> less(x, y)
    ensures Sorted(less, s + t)
  {
  }

  /** Insertion into a strictly sorted listing; an element already there is kept once. */
  function Insert<T>(less: (T, T) -> bool, x: T, s: seq<T>): seq<T> {
    if s == [] || less(x, s[0]) then [x] + s else [s[0]] + Insert(less, x, s[1..])
  }

  lemma {:induction false} InsertSorted<T(!new)>(less: (T, T) -> bool, x: T, s: seq<T>)
    requires StrictTotal(less) && Sorted(less, s) && x !in s
    ensures Sorted(less, Insert(less, x, s)) && Elements(Insert(less, x, s)) == Elements(s) + {x}
  {
    if s != [] {
      SortedRest(less, s);
      if !less(x, s[0]) {
        InsertSorted(less, x, s[1..]);
        var r := Insert(less, x, s[1..]);
        forall y | y in r
          ensures less(s[0], y)
        {
          assert y in Elements(s[1..]) + {x};
        }
        assert Elements([s[0]] + r) == {s[0]} + Elements(r);
      } else {
        assert Elements([x] + s) == {x} + Elements(s);
      }
    }
  }

  /** Rows of a finite table in key order. */
  method SortedRows<T(==, !new)>(less: (T, T) -> bool, rows: set<T>) returns (r: seq<T>)
    requires StrictTotal(less)
    ensures Sorted(less, r) && Elements(r) == rows
  {
    var rest := rows;
    r := [];
    while rest != {}
      invariant rest <= rows
      invariant Sorted(less, r) && Elements(r) == rows - rest
      decreases rest
    {
      var x :| x in rest;
      assert x !in Elements(r);
      InsertSorted(less, x, r);
      r := Insert(less, x, r);
      rest := rest - {x};
    }
  }

  lemma {:induction false} SortedListingExists<T(!new)>(less: (T, T) -> bool, s: set<T>) returns (r: seq<T>)
    requires StrictTotal(less)
    ensures Sorted(less, r) && Elements(r) == s
  {
    if s == {} {
      r := [];
    } else {
      var x :| x in s;
      r := SortedListingExists(less, s - {x});
      assert x !in Elements(r);
      InsertSorted(less, x, r);
      r := Insert(less, x, r);
    }
  }
}
