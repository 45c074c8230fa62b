/** Scanning a source tree: entry, file and byte budgets, and the canonical order of the
    manifest. */
module TreeScan {
  import opened Common
  import opened Order
  import opened Catalog

  /** What the walk meets: the size read before a file is staged and the number of bytes staged. */
  datatype Found = Found(path: string, kind: Option<EntryKind>, size: int, staged: nat, digest: string)
  datatype Limits = Limits(entries: nat, files: nat, bytes: nat)

  predicate IsFile(f: Found) {
    f.kind == Some(EntryKind.File)
  }

  function FileCount(items: seq<Found>): nat {
    if items == [] then 0 else FileCount(items[..|items| - 1]) + if IsFile(items[|items| - 1]) then 1 else 0
  }

  function StagedBytes(items: seq<Found>): nat {
    if items == [] then 0 else StagedBytes(items[..|items| - 1]) + if IsFile(items[|items| - 1]) then items[|items| - 1].staged else 0
  }

  /** A file is admitted by the size read before it is copied. */
  predicate Admitted(items: seq<Found>, i: nat, limits: Limits)
    requires i < |items|
  {
    && items[i].kind.Some?
    && (IsFile(items[i]) ==> 0 <= items[i].size <= limits.bytes - StagedBytes(items[..i]))
  }

  predicate Accepts(items: seq<Found>, limits: Limits) {
    && |items| <= limits.entries && FileCount(items) <= limits.files
    && forall i :: 0 <= i < |items| ==> Admitted(items, i, limits)
  }

  function PathOrder(): (Found, Found) -> bool {
    (a: Found, b: Found) => StringLess(a.path, b.path)
  }

  ghost predicate DistinctPaths(items: seq<Found>) {
    forall i, j :: 0 <= i < j < |items| ==> items[i].path != items[j].path
  }

  /** scanSourceTree over the entries the walk yields, .git left out beforehand if asked. */
  method Scan(items: seq<Found>, limits: Limits) returns (r: Tx<seq<Found>, ()>)
    requires DistinctPaths(items)
    ensures r.Commit? <==> Accepts(items, limits)
    ensures r.Commit? || r.Abort?
    ensures r.Commit? ==> Sorted(PathOrder(), r.state) && Elements(r.state) == Elements(items) && |r.state| == |items|
  {
    hide Elements;
    var entries: seq<Found> := [];
    var files, total := 0, 0;
    var i := 0;
    while i < |items|
      invariant 0 <= i <= |items| && i <= limits.entries && files == FileCount(items[..i]) && total == StagedBytes(items[..i])
      invariant files <= limits.files && forall k :: 0 <= k < i ==> Admitted(items, k, limits)
      invariant entries == items[..i]
    {
      var f := items[i];
      assert items[..i + 1][..i] == items[..i];
      CountsGrow(items, i);
      if i >= limits.entries {
        return Abort(Invalid);
      }
      if f.kind.None? {
        assert !Admitted(items, i, limits);
        return Abort(Unsupported);
      }
      if f.kind == Some(EntryKind.File) {
        files := files + 1;
        if files > limits.files {
          return Abort(Invalid);
        }
        if f.size < 0 || f.size > limits.bytes - total {
          assert !Admitted(items, i, limits);
          return Abort(Invalid);
        }
        total := total + f.staged;
      }
      entries := entries + [f];
      i := i + 1;
    }
    assert items[..i] == items;
    entries := SortByPath(entries);
    r := Commit(entries, ());
  }

  /** sort.Slice by path. */
  method SortByPath(items: seq<Found>) returns (out: seq<Found>)
    requires DistinctPaths(items)
    ensures Sorted(PathOrder(), out) && Elements(out) == Elements(items) && |out| == |items|
  {
    var byPath: map<string, Found> := map[];
    var i := 0;
    while i < |items|
      invariant 0 <= i <= |items| && |byPath| == i
      invariant forall k :: 0 <= k < i ==> items[k].path in byPath && byPath[items[k].path] == items[k]
      invariant forall p :: p in byPath ==> exists k :: 0 <= k < i && items[k].path == p
    {
      assert items[i].path !in byPath;
      byPath := byPath[items[i].path := items[i]];
      i := i + 1;
    }
    StringLessIsStrictTotal();
    hide StringLess;
    var paths := SortedRows(StringLess, byPath.Keys);
    assert forall k :: 0 <= k < |paths| ==> paths[k] in Elements(paths);
    out := seq(|paths|, k requires 0 <= k < |paths| => byPath[paths[k]]);
    LookedUp(items, byPath, paths, out);
  }

  lemma LookedUp(items: seq<Found>, byPath: map<string, Found>, paths: seq<string>, out: seq<Found>)
    requires |byPath| == |items| && (forall k :: 0 <= k < |items| ==> items[k].path in byPath && byPath[items[k].path] == items[k])
    requires forall p :: p in byPath ==> exists k :: 0 <= k < |items| && items[k].path == p
    requires Sorted(StringLess, paths) && Elements(paths) == byPath.Keys && StrictTotal(StringLess)
    requires |out| == |paths| && forall k :: 0 <= k < |paths| ==> paths[k] in byPath && out[k] == byPath[paths[k]]
    ensures Sorted(PathOrder(), out) && Elements(out) == Elements(items) && |out| == |items|
  {
    hide StringLess;
    forall k | 0 <= k < |paths|
      ensures out[k].path == paths[k] && out[k] in Elements(items)
    {
      var l :| 0 <= l < |items| && items[l].path == paths[k];
    }
    forall k | 0 <= k < |items|
      ensures items[k] in Elements(out)
    {
      assert items[k].path in Elements(paths);
      var l :| 0 <= l < |paths| && paths[l] == items[k].path;
      assert out[l] == items[k];
    }
    DistinctCount(paths);
  }

  lemma {:induction false} DistinctCount(s: seq<string>)
    requires Sorted(StringLess, s) && StrictTotal(StringLess)
    ensures |Elements(s)| == |s|
    decreases |s|
  {
    hide StringLess;
    if s != [] {
      var before, last := s[..|s| - 1], s[|s| - 1];
      DistinctCount(before);
      assert s == before + [last];
      assert Elements(s) == Elements(before) + {last};
      forall k | 0 <= k < |before|
        ensures before[k] != last
      {
        assert StringLess(s[k], last);
      }
    }
  }

  /** Counts only grow along the walk. */
  lemma {:induction false} CountsGrow(items: seq<Found>, i: nat)
    requires i < |items|
    ensures FileCount(items[..i + 1]) == FileCount(items[..i]) + (if IsFile(items[i]) then 1 else 0) <= FileCount(items)
    decreases |items| - i
  {
    assert items[..i + 1][..i] == items[..i];
    if i + 1 < |items| {
      CountsGrow(items, i + 1);
    } else {
      assert items[..i + 1] == items;
    }
  }

  /** The last file of the walk. */
  ghost predicate LastFile(items: seq<Found>, i: nat) {
    i < |items| && IsFile(items[i]) && forall k :: i < k < |items| ==> !IsFile(items[k])
  }

  /** How many bytes longer a file is staged than it was when its size was read. */
  function Growth(f: Found): int {
    f.staged - f.size
  }

  /** What the limit had left when a file was admitted. */
  function Slack(items: seq<Found>, i: nat, limits: Limits): int
    requires i < |items|
  {
    limits.bytes - StagedBytes(items[..i]) - items[i].size
  }

  /** The byte budget is checked against the size read before a file is copied. So whatever the
      earlier files did, an accepted scan overruns it by the growth of the last file beyond the
      slack it was admitted with; a last file that did not grow keeps the scan within. */
  lemma OverrunIsLastGrowth(items: seq<Found>, i: nat, limits: Limits)
    requires Accepts(items, limits) && LastFile(items, i)
    ensures StagedBytes(items) - limits.bytes == Growth(items[i]) - Slack(items, i, limits)
    ensures Slack(items, i, limits) >= 0 && StagedBytes(items[..i]) <= limits.bytes
    ensures Growth(items[i]) <= 0 ==> StagedBytes(items) <= limits.bytes
  {
    assert Admitted(items, i, limits);
    assert items[..i + 1][..i] == items[..i];
    NoMoreFiles(items, i + 1);
  }

  /** A scan without files stages nothing. */
  lemma NoFilesNoBytes(items: seq<Found>)
    requires forall k :: 0 <= k < |items| ==> !IsFile(items[k])
    ensures StagedBytes(items) == 0
  {
    NoMoreFiles(items, 0);
  }

  /** Under any limits that admit one file, one that grows between the check and the copy makes
      an accepted scan stage any number of bytes too many. */
  lemma GrowingFileOverruns(limits: Limits, excess: nat) returns (items: seq<Found>)
    requires limits.entries >= 1 && limits.files >= 1
    ensures DistinctPaths(items) && Accepts(items, limits) && StagedBytes(items) == limits.bytes + excess
  {
    var f := Found("a", Some(EntryKind.File), 0, limits.bytes + excess, "");
    items := [f];
    assert items[..0] == [];
    assert StagedBytes(items) == StagedBytes([]) + f.staged;
  }

  lemma {:induction false} NoMoreFiles(items: seq<Found>, n: nat)
    requires n <= |items| && forall k :: n <= k < |items| ==> !IsFile(items[k])
    ensures StagedBytes(items) == StagedBytes(items[..n])
    decreases |items| - n
  {
    if n == |items| {
      assert items[..n] == items;
    } else {
      assert items[..n + 1][..n] == items[..n];
      NoMoreFiles(items, n + 1);
    }
  }
}
