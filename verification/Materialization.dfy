/** Writing a projection to a directory: file and byte budgets in 64-bit arithmetic, sidecars,
    and the path of every file. */
module Materialization {
  import opened Common
  import opened Order
  import opened Paths
  import opened Closures
  import Bag
  import Queries

  newtype int64 = x: int | -0x8000_0000_0000_0000 <= x < 0x8000_0000_0000_0000

  datatype Layout = ById | ByEvidence | Flat

  datatype Spec = Spec(layout: Layout, closure: Policy, bytes: bool, metadata: bool, provenance: bool, findings: bool,
                       maxFiles: int, maxBytes: int64)

  datatype Obj = Obj(size: int64, name: string, path: string, digest: string)

  /** A projection member with what its object, its sidecars and its findings hold. */
  datatype Row = Row(ref: Ref, reason: Reason, obj: Option<Obj>, metadataSize: int64, provenanceSize: int64,
                     findings: seq<(Id, int64)>, evidence: string)

  datatype Role = Metadata | Provenance | Finding

  /** A sidecar: its role, what it describes and its size. */
  datatype File = File(role: Role, subject: Id, size: int64)
  datatype Entry = Entry(ref: Ref, path: string, size: int64, digest: string, reason: Reason)
  datatype Manifest = Manifest(entries: seq<Entry>, files: seq<File>)

  // ---- Paths ----

  function Directory(role: Role): string {
    match role
    case Metadata => "metadata"
    case Provenance => "provenance"
    case Finding => "findings"
  }

  function FilePath(f: File): string {
    Directory(f.role) + "/" + (Sanitize(f.subject.text) + ".json")
  }

  function ShortId(id: string): string {
    if |id| > 10 then id[|id| - 10..] else id
  }

  function LastPart(path: string): string {
    var parts := Split(path, '/');
    parts[|parts| - 1]
  }

  function SlashesOf(path: string): string {
    Queries.Glob.Slashed(path)
  }

  function FileName(o: Obj): string {
    var name := Sanitize(o.name);
    if name == "_" && o.path != "" then Sanitize(LastPart(SlashesOf(o.path))) else name
  }

  function SanitizeParts(parts: seq<string>): seq<string> {
    if parts == [] then []
    else (if parts[0] == "" || parts[0] == "." || parts[0] == ".." then [] else [Sanitize(parts[0])]) + SanitizeParts(parts[1..])
  }

  function SanitizeLogicalPath(p: string): string {
    Join(SanitizeParts(Split(SlashesOf(p), '/')), '/')
  }

  /** projectionPath */
  function ProjectionPath(layout: Layout, ref: Ref, o: Obj, evidence: string): string {
    match layout
    case Flat => "data/flat/" + FileName(o) + "~" + ShortId(ref.id.text)
    case ByEvidence =>
      "data/by-evidence/" + Sanitize(if evidence == "" then "unassigned" else evidence) + "/"
      + (if SanitizeLogicalPath(o.path) == "" then FileName(o) else SanitizeLogicalPath(o.path))
    case ById => "data/by-id/" + Sanitize(KindName(ref.kind)) + "/" + Sanitize(ref.id.text) + "/" + FileName(o)
  }

  function AddIdCollision(path: string, id: string): string {
    var ext := Queries.Extension(path);
    (if |ext| <= |path| then path[..|path| - |ext|] else path) + "~" + ShortId(id) + ext
  }

  // ---- Letter case ----

  /** strings.ToLower works character by character; it keeps lower-case letters, digits and the
      punctuation of these paths, and makes no other character a slash. */
  ghost predicate Folds(lower: char -> char) {
    && (forall ch :: 'a' <= ch <= 'z' || '-' <= ch <= '9' || ch == '_' ==> lower(ch) == ch)
    && (forall ch :: lower(ch) == '/' ==> ch == '/')
  }

  function Lowered(lower: char -> char, s: string): (r: string)
    ensures |r| == |s|
  {
    seq(|s|, i requires 0 <= i < |s| => lower(s[i]))
  }

  // ---- Budgets ----

  function FileSum(files: seq<File>): int {
    if files == [] then 0 else FileSum(files[..|files| - 1]) + files[|files| - 1].size as int
  }

  function EntrySum(entries: seq<Entry>): int {
    if entries == [] then 0 else EntrySum(entries[..|entries| - 1]) + entries[|entries| - 1].size as int
  }

  /** Counts and sizes stay within both limits, and no size is negative. */
  ghost predicate WithinBudget(s: Spec, m: Manifest) {
    && |m.entries| + |m.files| <= s.maxFiles
    && (forall i :: 0 <= i < |m.files| ==> m.files[i].size >= 0)
    && (forall i :: 0 <= i < |m.entries| ==> m.entries[i].size >= 0)
    && FileSum(m.files) + EntrySum(m.entries) <= s.maxBytes as int
  }

  lemma FileSumAppend(files: seq<File>, f: File)
    ensures FileSum(files + [f]) == FileSum(files) + f.size as int
  {
    assert (files + [f])[..|files|] == files;
  }

  lemma EntrySumAppend(entries: seq<Entry>, e: Entry)
    ensures EntrySum(entries + [e]) == EntrySum(entries) + e.size as int
  {
    assert (entries + [e])[..|entries|] == entries;
  }

  lemma {:induction false} FileSumGrows(files: seq<File>, n: nat)
    requires n <= |files| && forall i :: 0 <= i < |files| ==> files[i].size >= 0
    ensures 0 <= FileSum(files[..n]) <= FileSum(files)
    decreases |files|
  {
    if n < |files| {
      var before := files[..|files| - 1];
      FileSumGrows(before, n);
      assert before[..n] == files[..n];
    } else {
      assert files[..n] == files;
      if files != [] {
        FileSumGrows(files[..n - 1], 0);
      }
    }
  }

  lemma {:induction false} EntrySumGrows(entries: seq<Entry>, n: nat)
    requires n <= |entries| && forall i :: 0 <= i < |entries| ==> entries[i].size >= 0
    ensures 0 <= EntrySum(entries[..n]) <= EntrySum(entries)
    decreases |entries|
  {
    if n < |entries| {
      var before := entries[..|entries| - 1];
      EntrySumGrows(before, n);
      assert before[..n] == entries[..n];
    } else {
      assert entries[..n] == entries;
      if entries != [] {
        EntrySumGrows(entries[..n - 1], 0);
      }
    }
  }

  /** What fits whole fits in part. */
  lemma BudgetPrefix(s: Spec, m: Manifest, part: Manifest)
    requires WithinBudget(s, m) && part.files <= m.files && part.entries <= m.entries
    ensures WithinBudget(s, part) && 0 <= FileSum(part.files) + EntrySum(part.entries)
  {
    hide FileSum, EntrySum;
    FileSumGrows(m.files, |part.files|);
    EntrySumGrows(m.entries, |part.entries|);
    assert m.files[..|part.files|] == part.files && m.entries[..|part.entries|] == part.entries;
  }

  lemma PartFits(s: Spec, entries: seq<Entry>, part: seq<File>, rest: seq<File>)
    ensures WithinBudget(s, Manifest.Manifest(entries, part + rest)) ==> WithinBudget(s, Manifest.Manifest(entries, part))
  {
    hide WithinBudget;
    if WithinBudget(s, Manifest.Manifest(entries, part + rest)) {
      BudgetPrefix(s, Manifest.Manifest(entries, part + rest), Manifest.Manifest(entries, part));
    }
  }

  // ---- What a projection is written as ----

  predicate Wanted(spec: Spec, row: Row) {
    row.obj.Some? && spec.bytes && !(spec.closure.Sources? && row.reason.From? && row.reason.tag.SourceMetadata?)
  }

  /** Defaults of Materialize. */
  function Effective(s: Spec): Spec {
    s.(maxFiles := if s.maxFiles <= 0 then 100000 else s.maxFiles,
       maxBytes := if s.maxBytes <= 0 then 0x100_0000_0000 else s.maxBytes)
  }

  /** The path of a file: the layout's, or that with the identifier if another file has it. */
  function PathFor(layout: Layout, lower: char -> char, used: set<string>, row: Row, o: Obj): string {
    var logical := ProjectionPath(layout, row.ref, o, row.evidence);
    if Lowered(lower, logical) in used then AddIdCollision(logical, row.ref.id.text) else logical
  }

  function UsedPaths(lower: char -> char, entries: seq<Entry>): set<string> {
    set e | e in entries :: Lowered(lower, e.path)
  }

  function WrittenPaths(entries: seq<Entry>): set<string> {
    set e | e in entries :: e.path
  }

  /** The sidecars of the findings that have none yet. */
  function FindingFiles(findings: seq<(Id, int64)>, emitted: set<Id>): seq<File>
    decreases |findings|
  {
    if findings == [] then []
    else
      (if findings[0].0 in emitted then [] else [File(Finding, findings[0].0, findings[0].1)])
      + FindingFiles(findings[1..], emitted + {findings[0].0})
  }

  function FindingIds(findings: seq<(Id, int64)>): set<Id> {
    set f | f in findings :: f.0
  }

  function RowFiles(spec: Spec, row: Row, emitted: set<Id>): seq<File> {
    (if spec.metadata then [File(Metadata, row.ref.id, row.metadataSize)] else [])
    + (if spec.provenance then [File(Provenance, row.ref.id, row.provenanceSize)] else [])
    + (if spec.findings then FindingFiles(row.findings, emitted) else [])
  }

  function RowEntries(spec: Spec, lower: char -> char, entries: seq<Entry>, row: Row): seq<Entry> {
    if Wanted(spec, row) then
      var o := row.obj.value;
      [Entry(row.ref, PathFor(spec.layout, lower, UsedPaths(lower, entries), row, o), o.size, o.digest, row.reason)]
    else []
  }

  /** The finding revisions that the rows bring in. */
  function FindingsOf(spec: Spec, rows: seq<Row>): set<Id> {
    if spec.findings then set r, f | r in rows && f in r.findings :: f.0 else {}
  }

  function Extended(spec: Spec, lower: char -> char, m: Manifest, row: Row, emitted: set<Id>): Manifest {
    Manifest.Manifest(m.entries + RowEntries(spec, lower, m.entries, row), m.files + RowFiles(spec, row, emitted))
  }

  /** The manifest of the rows, whatever the limits. */
  function Planned(spec: Spec, lower: char -> char, rows: seq<Row>): Manifest
    decreases |rows|
  {
    if rows == [] then Manifest.Manifest([], [])
    else
      var before := rows[..|rows| - 1];
      Extended(spec, lower, Planned(spec, lower, before), rows[|rows| - 1], FindingsOf(spec, before))
  }

  /** The path of a member's bytes can be written: not too long, inside the directory, and of
      no file yet. */
  ghost predicate RowFits(spec: Spec, lower: char -> char, entries: seq<Entry>, row: Row) {
    Wanted(spec, row) ==>
      var path := PathFor(spec.layout, lower, UsedPaths(lower, entries), row, row.obj.value);
      |ProjectionPath(spec.layout, row.ref, row.obj.value, row.evidence)| <= 4096
      && Bag.WithinBag(Bag.Clean(path)) && path !in WrittenPaths(entries)
  }

  /** The projection can be materialized. */
  ghost predicate Fits(spec: Spec, lower: char -> char, rows: seq<Row>) {
    && WithinBudget(spec, Planned(spec, lower, rows))
    && forall k :: 0 <= k < |rows| ==> RowFits(spec, lower, Planned(spec, lower, rows[..k]).entries, rows[k])
  }

  lemma PlannedStep(spec: Spec, lower: char -> char, rows: seq<Row>, n: nat)
    requires n < |rows|
    ensures Planned(spec, lower, rows[..n + 1])
            == Extended(spec, lower, Planned(spec, lower, rows[..n]), rows[n], FindingsOf(spec, rows[..n]))
  {
    assert rows[..n + 1][..n] == rows[..n];
  }

  lemma {:induction false} PlannedPrefix(spec: Spec, lower: char -> char, rows: seq<Row>, n: nat)
    requires n <= |rows|
    ensures Planned(spec, lower, rows[..n]).files <= Planned(spec, lower, rows).files
    ensures Planned(spec, lower, rows[..n]).entries <= Planned(spec, lower, rows).entries
    decreases |rows| - n
  {
    if n == |rows| {
      assert rows[..n] == rows;
    } else {
      PlannedStep(spec, lower, rows, n);
      hide Planned, RowFiles, RowEntries;
      PlannedPrefix(spec, lower, rows, n + 1);
    }
  }

  lemma FindingsStep(spec: Spec, rows: seq<Row>, n: nat)
    requires n < |rows|
    ensures FindingsOf(spec, rows[..n + 1])
            == FindingsOf(spec, rows[..n]) + (if spec.findings then FindingIds(rows[n].findings) else {})
  {
    assert rows[..n + 1] == rows[..n] + [rows[n]];
    assert forall r :: r in rows[..n + 1] <==> r in rows[..n] || r == rows[n];
  }

  // ---- Writing it ----

  /** The running state of one materialization. */
  class Writer {
    const spec: Spec
    const lower: char -> char
    var files: seq<File>
    var entries: seq<Entry>
    var emittedFiles: int
    var total: int64
    var used: set<string>
    var written: set<string>
    var emitted: set<Id>

    ghost function Done(): Manifest
      reads this
    {
      Manifest.Manifest(entries, files)
    }

    /** The counters equal what the manifest holds, which is within the budgets, and the sets
        hold its paths. */
    ghost predicate Valid()
      reads this
    {
      && emittedFiles == |files| + |entries| && 0 <= total && total as int == FileSum(files) + EntrySum(entries)
      && WithinBudget(spec, Done())
      && used == UsedPaths(lower, entries) && written == WrittenPaths(entries)
    }

    constructor (s: Spec, l: char -> char)
      requires 0 <= s.maxFiles && 0 <= s.maxBytes
      ensures spec == s && lower == l && Valid() && Done() == Manifest.Manifest([], []) && emitted == {}
    {
      spec, lower, files, entries, emittedFiles, total := s, l, [], [], 0, 0;
      used, written, emitted := {}, {}, {};
    }

    /** addProjectionSupportFile */
    method AddSupportFile(f: File) returns (ok: bool)
      requires Valid()
      modifies this`files, this`emittedFiles, this`total
      ensures Valid()
      ensures ok <==> WithinBudget(spec, Manifest.Manifest(entries, old(files) + [f]))
      ensures files == if ok then old(files) + [f] else old(files)
    {
      hide FileSum, EntrySum;
      FileSumAppend(files, f);
      if emittedFiles >= spec.maxFiles {
        return false;
      }
      if f.size < 0 || f.size > spec.maxBytes - total {
        assert f == (files + [f])[|files|];
        return false;
      }
      files := files + [f];
      emittedFiles := emittedFiles + 1;
      total := total + f.size;
      ok := true;
    }

    /** writeFindingSidecars and the budget checks on its files. */
    method AddFindings(findings: seq<(Id, int64)>) returns (ok: bool)
      requires Valid()
      modifies this`files, this`emittedFiles, this`total, this`emitted
      ensures Valid()
      ensures ok <==> WithinBudget(spec, Manifest.Manifest(entries, old(files) + FindingFiles(findings, old(emitted))))
      ensures ok ==> files == old(files) + FindingFiles(findings, old(emitted))
      ensures ok ==> emitted == old(emitted) + FindingIds(findings)
    {
      hide WithinBudget, FileSum, EntrySum, UsedPaths, WrittenPaths, FindingFiles;
      ghost var whole := old(files) + FindingFiles(findings, old(emitted));
      var k := 0;
      assert findings[0..] == findings;
      while k < |findings|
        invariant 0 <= k <= |findings| && Valid()
        invariant files + FindingFiles(findings[k..], emitted) == whole
        invariant emitted + FindingIds(findings[k..]) == old(emitted) + FindingIds(findings)
      {
        var id, size := findings[k].0, findings[k].1;
        FindingFilesStep(findings, k, emitted);
        if id !in emitted {
          var f := File(Finding, id, size);
          ghost var before, rest := files, FindingFiles(findings[k + 1..], emitted + {id});
          assert files + ([f] + rest) == files + [f] + rest;
          PartFits(spec, entries, before + [f], rest);
          emitted := emitted + {id};
          ok := AddSupportFile(f);
          if !ok {
            return;
          }
        } else {
          assert emitted + {id} == emitted;
        }
        k := k + 1;
      }
      NothingFound(findings, emitted);
      assert files + [] == files;
      ok := true;
      assert WithinBudget(spec, Done());
    }

    /** The sidecars of one member. */
    method AddSidecars(row: Row) returns (ok: bool)
      requires Valid()
      modifies this`files, this`emittedFiles, this`total, this`emitted
      ensures Valid()
      ensures ok <==> WithinBudget(spec, Manifest.Manifest(entries, old(files) + RowFiles(spec, row, old(emitted))))
      ensures ok ==> files == old(files) + RowFiles(spec, row, old(emitted))
      ensures ok ==> emitted == old(emitted) + (if spec.findings then FindingIds(row.findings) else {})
    {
      hide WithinBudget, FileSum, EntrySum, UsedPaths, WrittenPaths, FindingFiles;
      ghost var whole := Manifest.Manifest(entries, files + RowFiles(spec, row, emitted));
      if spec.metadata {
        var f := File(Metadata, row.ref.id, row.metadataSize);
        assert files + [f] <= whole.files;
        if WithinBudget(spec, whole) {
          BudgetPrefix(spec, whole, Manifest.Manifest(entries, files + [f]));
        }
        ok := AddSupportFile(f);
        if !ok {
          return;
        }
      }
      if spec.provenance {
        var f := File(Provenance, row.ref.id, row.provenanceSize);
        assert files + [f] <= whole.files;
        if WithinBudget(spec, whole) {
          BudgetPrefix(spec, whole, Manifest.Manifest(entries, files + [f]));
        }
        ok := AddSupportFile(f);
        if !ok {
          return;
        }
      }
      if spec.findings {
        assert files + FindingFiles(row.findings, emitted) == whole.files;
        ok := AddFindings(row.findings);
        return;
      }
      assert files == whole.files && WithinBudget(spec, Done());
      ok := true;
    }

    /** The bytes of a member that has an object and is wanted whole. */
    method AddBytes(row: Row) returns (ok: bool)
      requires Valid() && Wanted(spec, row)
      modifies this`entries, this`emittedFiles, this`total, this`used, this`written
      ensures var after := old(entries) + RowEntries(spec, lower, old(entries), row);
              && (ok <==> RowFits(spec, lower, old(entries), row) && WithinBudget(spec, Manifest.Manifest(after, files)))
              && (ok ==> Valid() && entries == after)
    {
      hide PathFor, ProjectionPath, Bag.Clean, Bag.WithinBag, Lowered, FileSum, EntrySum;
      var o := row.obj.value;
      var logical := PathFor(spec.layout, lower, used, row, o);
      var e := Entry(row.ref, logical, o.size, o.digest, row.reason);
      EntrySumAppend(entries, e);
      assert (entries + [e])[|entries|] == e;
      if emittedFiles >= spec.maxFiles {
        return false;
      }
      if o.size < 0 || o.size > spec.maxBytes - total {
        return false;
      }
      if |ProjectionPath(spec.layout, row.ref, o, row.evidence)| > 4096 || !Bag.WithinBag(Bag.Clean(logical)) || logical in written {
        return false;
      }
      total := total + o.size;
      used := used + {Lowered(lower, logical)};
      written := written + {logical};
      entries := entries + [e];
      emittedFiles := emittedFiles + 1;
      ok := true;
    }

    /** One row of the loop. */
    method AddRow(row: Row) returns (ok: bool)
      requires Valid()
      modifies this
      ensures var after := Extended(spec, lower, old(Done()), row, old(emitted));
              && (ok <==> RowFits(spec, lower, old(entries), row) && WithinBudget(spec, after))
              && (ok ==> Valid() && Done() == after)
      ensures ok ==> emitted == old(emitted) + (if spec.findings then FindingIds(row.findings) else {})
    {
      hide RowFiles, RowFits, WithinBudget, FileSum, EntrySum, UsedPaths, WrittenPaths, PathFor;
      ghost var after := Extended(spec, lower, Done(), row, emitted);
      if WithinBudget(spec, after) {
        BudgetPrefix(spec, after, Manifest.Manifest(entries, after.files));
      }
      ok := AddSidecars(row);
      if !ok {
        return;
      }
      if Wanted(spec, row) {
        ok := AddBytes(row);
      } else {
        assert RowFits(spec, lower, entries, row) by {
          UnwantedFits(spec, lower, entries, row);
        }
        assert entries + [] == entries && after == Done();
      }
    }
  }

  lemma UnwantedFits(spec: Spec, lower: char -> char, entries: seq<Entry>, row: Row)
    requires !Wanted(spec, row)
    ensures RowFits(spec, lower, entries, row)
  {
  }

  lemma FindingFilesStep(findings: seq<(Id, int64)>, k: nat, emitted: set<Id>)
    requires k < |findings|
    ensures var id, rest := findings[k].0, FindingFiles(findings[k + 1..], emitted + {findings[k].0});
            FindingFiles(findings[k..], emitted) == if id in emitted then rest else [File(Finding, id, findings[k].1)] + rest
    ensures FindingIds(findings[k..]) == {findings[k].0} + FindingIds(findings[k + 1..])
  {
    assert findings[k..][1..] == findings[k + 1..];
    assert findings[k..] == [findings[k]] + findings[k + 1..];
  }

  lemma NothingFound(findings: seq<(Id, int64)>, emitted: set<Id>)
    ensures FindingFiles(findings[|findings|..], emitted) == [] && FindingIds(findings[|findings|..]) == {}
  {
  }

  /** Materialize goes through exactly when the projection fits, and then writes what is planned. */
  method Materialize(spec: Spec, rows: seq<Row>, lower: char -> char) returns (r: Tx<Manifest, ()>)
    ensures r.Commit? <==> Fits(Effective(spec), lower, rows)
    ensures r.Commit? ==> r.state == Planned(Effective(spec), lower, rows)
    ensures r.Commit? || r.Abort?
  {
    hide RowFits, WithinBudget, Planned, Extended, FindingsOf, Writer.Valid;
    var s := Effective(spec);
    var w := new Writer(s, lower);
    StartsEmpty(s, lower, rows);
    var n := 0;
    while n < |rows|
      invariant 0 <= n <= |rows| && fresh(w) && w.spec == s && w.lower == lower && w.Valid()
      invariant w.Done() == Planned(s, lower, rows[..n]) && w.emitted == FindingsOf(s, rows[..n])
      invariant forall k :: 0 <= k < n ==> RowFits(s, lower, Planned(s, lower, rows[..k]).entries, rows[k])
    {
      PlannedStep(s, lower, rows, n);
      FindingsStep(s, rows, n);
      var ok := w.AddRow(rows[n]);
      if !ok {
        if Fits(s, lower, rows) {
          PlannedPrefix(s, lower, rows, n + 1);
          BudgetPrefix(s, Planned(s, lower, rows), Planned(s, lower, rows[..n + 1]));
        }
        return Abort(Invalid);
      }
      n := n + 1;
    }
    assert rows[..n] == rows;
    WriterWithinBudget(w);
    r := Commit(Manifest.Manifest(w.entries, w.files), ());
  }

  lemma WriterWithinBudget(w: Writer)
    requires w.Valid()
    ensures WithinBudget(w.spec, w.Done())
  {
  }

  lemma StartsEmpty(spec: Spec, lower: char -> char, rows: seq<Row>)
    ensures Planned(spec, lower, rows[..0]) == Manifest.Manifest([], []) && FindingsOf(spec, rows[..0]) == {}
  {
  }

  // ---- What the manifest says ----

  ghost predicate DistinctRows(rows: seq<Row>) {
    forall i, j :: 0 <= i < j < |rows| ==> rows[i].ref.id != rows[j].ref.id
  }

  function RowIdsOf(rows: seq<Row>): set<Id> {
    set r | r in rows :: r.ref.id
  }

  ghost predicate HasFile(files: seq<File>, role: Role, id: Id) {
    exists i :: 0 <= i < |files| && files[i].role == role && files[i].subject == id
  }

  ghost predicate NoneTwice(files: seq<File>) {
    forall i, j :: 0 <= i < j < |files| ==> files[i].role != files[j].role || files[i].subject != files[j].subject
  }

  /** No sidecar twice; one of each wanted role for each member, one for each finding revision of
      a member, and no other. */
  ghost predicate FilesAre(spec: Spec, files: seq<File>, members: set<Id>, findings: set<Id>) {
    && NoneTwice(files)
    && (forall id :: HasFile(files, Metadata, id) <==> spec.metadata && id in members)
    && (forall id :: HasFile(files, Provenance, id) <==> spec.provenance && id in members)
    && (forall id :: HasFile(files, Finding, id) <==> id in findings)
  }

  ghost predicate IsEntryOf(e: Entry, row: Row) {
    row.obj.Some? && e.ref == row.ref && e.size == row.obj.value.size && e.digest == row.obj.value.digest && e.reason == row.reason
  }

  ghost predicate HasEntry(entries: seq<Entry>, row: Row) {
    exists i :: 0 <= i < |entries| && IsEntryOf(entries[i], row)
  }

  ghost predicate HasRow(spec: Spec, rows: seq<Row>, e: Entry) {
    exists k :: 0 <= k < |rows| && Wanted(spec, rows[k]) && IsEntryOf(e, rows[k])
  }

  /** One entry for each wanted member and no other, all at different paths. */
  ghost predicate EntriesAre(spec: Spec, entries: seq<Entry>, rows: seq<Row>) {
    && (forall i, j :: 0 <= i < j < |entries| ==> entries[i].path != entries[j].path && entries[i].ref.id != entries[j].ref.id)
    && (forall i :: 0 <= i < |entries| ==> HasRow(spec, rows, entries[i]))
    && (forall k :: 0 <= k < |rows| && Wanted(spec, rows[k]) ==> HasEntry(entries, rows[k]))
  }

  lemma HasFileAppend(files: seq<File>, f: File, role: Role, id: Id)
    ensures HasFile(files + [f], role, id) <==> HasFile(files, role, id) || (f.role == role && f.subject == id)
  {
    var all := files + [f];
    if HasFile(files, role, id) {
      var i :| 0 <= i < |files| && files[i].role == role && files[i].subject == id;
      assert all[i].role == role && all[i].subject == id;
    }
    if f.role == role && f.subject == id {
      assert all[|files|].role == role && all[|files|].subject == id;
    }
  }

  lemma NoneTwiceAppend(files: seq<File>, f: File)
    requires NoneTwice(files) && !HasFile(files, f.role, f.subject)
    ensures NoneTwice(files + [f])
  {
  }

  lemma {:induction false} FindingFilesAdded(spec: Spec, files: seq<File>, members: set<Id>, findings: seq<(Id, int64)>, emitted: set<Id>)
    requires FilesAre(spec, files, members, emitted)
    ensures FilesAre(spec, files + FindingFiles(findings, emitted), members, emitted + FindingIds(findings))
    decreases |findings|
  {
    hide HasFile, NoneTwice;
    if findings == [] {
      assert files + [] == files && emitted + FindingIds(findings) == emitted;
    } else {
      var id, rest := findings[0].0, findings[1..];
      var f := File(Finding, id, findings[0].1);
      assert findings == [findings[0]] + rest;
      assert emitted + FindingIds(findings) == emitted + {id} + FindingIds(rest);
      if id in emitted {
        assert emitted + {id} == emitted;
        FindingFilesAdded(spec, files, members, rest, emitted);
        assert [] + FindingFiles(rest, emitted) == FindingFiles(rest, emitted);
      } else {
        OneFileAdded(spec, files, members, emitted, f);
        FindingFilesAdded(spec, files + [f], members, rest, emitted + {id});
        assert files + ([f] + FindingFiles(rest, emitted + {id})) == files + [f] + FindingFiles(rest, emitted + {id});
      }
    }
  }

  lemma OneFileAdded(spec: Spec, files: seq<File>, members: set<Id>, emitted: set<Id>, f: File)
    requires FilesAre(spec, files, members, emitted) && f.role.Finding? && f.subject !in emitted
    ensures FilesAre(spec, files + [f], members, emitted + {f.subject})
  {
    hide HasFile, NoneTwice;
    NoneTwiceAppend(files, f);
    forall role, id
      ensures HasFile(files + [f], role, id) <==> HasFile(files, role, id) || (f.role == role && f.subject == id)
    {
      HasFileAppend(files, f, role, id);
    }
  }

  lemma RowFilesAdded(spec: Spec, files: seq<File>, members: set<Id>, emitted: set<Id>, row: Row)
    requires FilesAre(spec, files, members, emitted) && row.ref.id !in members
    ensures FilesAre(spec, files + RowFiles(spec, row, emitted), members + {row.ref.id},
                     emitted + (if spec.findings then FindingIds(row.findings) else {}))
  {
    hide FindingFiles, HasFile, NoneTwice;
    var id := row.ref.id;
    var own := (if spec.metadata then [File(Metadata, id, row.metadataSize)] else [])
             + (if spec.provenance then [File(Provenance, id, row.provenanceSize)] else []);
    OwnFilesAdded(spec, files, members, emitted, row, own);
    if spec.findings {
      FindingFilesAdded(spec, files + own, members + {id}, row.findings, emitted);
      assert files + (own + FindingFiles(row.findings, emitted)) == files + own + FindingFiles(row.findings, emitted);
    } else {
      assert own + [] == own && emitted + {} == emitted;
    }
  }

  lemma OwnFilesAdded(spec: Spec, files: seq<File>, members: set<Id>, emitted: set<Id>, row: Row, own: seq<File>)
    requires FilesAre(spec, files, members, emitted) && row.ref.id !in members
    requires own == (if spec.metadata then [File(Metadata, row.ref.id, row.metadataSize)] else [])
                    + (if spec.provenance then [File(Provenance, row.ref.id, row.provenanceSize)] else [])
    ensures FilesAre(spec, files + own, members + {row.ref.id}, emitted)
  {
    hide HasFile, NoneTwice;
    var m, p := File(Metadata, row.ref.id, row.metadataSize), File(Provenance, row.ref.id, row.provenanceSize);
    var first := files + (if spec.metadata then [m] else []);
    forall role, id
      ensures HasFile(files + [m], role, id) <==> HasFile(files, role, id) || (m.role == role && m.subject == id)
    {
      HasFileAppend(files, m, role, id);
    }
    forall role, id
      ensures HasFile(first + [p], role, id) <==> HasFile(first, role, id) || (p.role == role && p.subject == id)
    {
      HasFileAppend(first, p, role, id);
    }
    assert files + [] == files && first + [] == first;
    if spec.metadata {
      NoneTwiceAppend(files, m);
    }
    if spec.provenance {
      NoneTwiceAppend(first, p);
    }
    assert files + own == first + (if spec.provenance then [p] else []);
  }

  lemma RowEntryAdded(spec: Spec, lower: char -> char, entries: seq<Entry>, rows: seq<Row>, n: nat)
    requires n < |rows| && DistinctRows(rows) && EntriesAre(spec, entries, rows[..n]) && RowFits(spec, lower, entries, rows[n])
    ensures EntriesAre(spec, entries + RowEntries(spec, lower, entries, rows[n]), rows[..n + 1])
  {
    hide RowEntries, RowFits, Wanted, IsEntryOf;
    EntriesStay(spec, entries, rows, n);
    if Wanted(spec, rows[n]) {
      var e := NewEntry(spec, lower, entries, rows[n]);
      assert rows[..n + 1][n] == rows[n];
      OneMoreEntry(spec, entries, rows, n, e);
    } else {
      NoEntry(spec, lower, entries, rows[n]);
      assert entries + [] == entries;
      assert forall k :: 0 <= k < n ==> rows[..n + 1][k] == rows[..n][k];
    }
  }

  lemma NoEntry(spec: Spec, lower: char -> char, entries: seq<Entry>, row: Row)
    requires !Wanted(spec, row)
    ensures RowEntries(spec, lower, entries, row) == []
  {
  }

  lemma NewEntry(spec: Spec, lower: char -> char, entries: seq<Entry>, row: Row) returns (e: Entry)
    requires Wanted(spec, row) && RowFits(spec, lower, entries, row)
    ensures RowEntries(spec, lower, entries, row) == [e] && IsEntryOf(e, row) && e.path !in WrittenPaths(entries)
  {
    hide PathFor, ProjectionPath, Bag.Clean, Bag.WithinBag, UsedPaths, WrittenPaths;
    e := RowEntries(spec, lower, entries, row)[0];
  }

  /** What the entries say of the rows so far they say of one row more. */
  lemma EntriesStay(spec: Spec, entries: seq<Entry>, rows: seq<Row>, n: nat)
    requires n < |rows| && DistinctRows(rows) && EntriesAre(spec, entries, rows[..n])
    ensures forall i :: 0 <= i < |entries| ==> HasRow(spec, rows[..n + 1], entries[i]) && entries[i].ref.id != rows[n].ref.id
    ensures forall k :: 0 <= k < n && Wanted(spec, rows[k]) ==> HasEntry(entries, rows[k])
  {
    hide Wanted, HasEntry;
    forall i | 0 <= i < |entries|
      ensures HasRow(spec, rows[..n + 1], entries[i]) && entries[i].ref.id != rows[n].ref.id
    {
      var k :| 0 <= k < |rows[..n]| && Wanted(spec, rows[..n][k]) && IsEntryOf(entries[i], rows[..n][k]);
      assert rows[..n + 1][k] == rows[..n][k] == rows[k];
    }
    forall k | 0 <= k < n && Wanted(spec, rows[k])
      ensures HasEntry(entries, rows[k])
    {
      assert rows[..n][k] == rows[k];
    }
  }

  lemma OneMoreEntry(spec: Spec, entries: seq<Entry>, rows: seq<Row>, n: nat, e: Entry)
    requires n < |rows| && Wanted(spec, rows[n]) && IsEntryOf(e, rows[n]) && e.path !in WrittenPaths(entries)
    requires forall i, j :: 0 <= i < j < |entries| ==> entries[i].path != entries[j].path && entries[i].ref.id != entries[j].ref.id
    requires forall i :: 0 <= i < |entries| ==> HasRow(spec, rows[..n + 1], entries[i]) && entries[i].ref.id != rows[n].ref.id
    requires forall k :: 0 <= k < n && Wanted(spec, rows[k]) ==> HasEntry(entries, rows[k])
    ensures EntriesAre(spec, entries + [e], rows[..n + 1])
  {
    hide Wanted, HasRow, HasEntry;
    var all := entries + [e];
    assert rows[..n + 1][n] == rows[n];
    assert HasRow(spec, rows[..n + 1], e) && HasEntry(all, rows[n]) by {
      RowOfEntry(spec, rows[..n + 1], n, e);
      assert all[|entries|] == e;
      EntryOfRow(all, |entries|, rows[n]);
    }
    forall k | 0 <= k < n && Wanted(spec, rows[k])
      ensures HasEntry(all, rows[k])
    {
      EntryStays(entries, e, rows[k]);
    }
    forall i | 0 <= i < |entries|
      ensures entries[i].path != e.path
    {
      assert entries[i].path in WrittenPaths(entries);
    }
  }

  lemma RowOfEntry(spec: Spec, rows: seq<Row>, k: nat, e: Entry)
    requires k < |rows| && Wanted(spec, rows[k]) && IsEntryOf(e, rows[k])
    ensures HasRow(spec, rows, e)
  {
  }

  lemma EntryOfRow(entries: seq<Entry>, i: nat, row: Row)
    requires i < |entries| && IsEntryOf(entries[i], row)
    ensures HasEntry(entries, row)
  {
  }

  lemma EntryStays(entries: seq<Entry>, e: Entry, row: Row)
    requires HasEntry(entries, row)
    ensures HasEntry(entries + [e], row)
  {
    var i :| 0 <= i < |entries| && IsEntryOf(entries[i], row);
    EntryOfRow(entries + [e], i, row);
  }

  lemma OneMoreRow(rows: seq<Row>, n: nat)
    requires n < |rows| && DistinctRows(rows)
    ensures RowIdsOf(rows[..n + 1]) == RowIdsOf(rows[..n]) + {rows[n].ref.id} && rows[n].ref.id !in RowIdsOf(rows[..n])
  {
    assert forall r :: r in rows[..n + 1] <==> r in rows[..n] || r == rows[n] by {
      assert rows[..n + 1] == rows[..n] + [rows[n]];
    }
    forall r | r in rows[..n]
      ensures r.ref.id != rows[n].ref.id
    {
      var i :| 0 <= i < n && rows[i] == r;
    }
  }

  /** The manifest is that of the first n rows. */
  ghost predicate IsManifestOf(spec: Spec, m: Manifest, rows: seq<Row>) {
    FilesAre(spec, m.files, RowIdsOf(rows), FindingsOf(spec, rows)) && EntriesAre(spec, m.entries, rows)
  }

  lemma FitsRow(spec: Spec, lower: char -> char, rows: seq<Row>, k: nat)
    requires Fits(spec, lower, rows) && k < |rows|
    ensures RowFits(spec, lower, Planned(spec, lower, rows[..k]).entries, rows[k])
  {
  }

  lemma NothingPlanned(spec: Spec, lower: char -> char, rows: seq<Row>)
    ensures IsManifestOf(spec, Planned(spec, lower, rows[..0]), rows[..0])
  {
    StartsEmpty(spec, lower, rows);
    assert RowIdsOf(rows[..0]) == {};
  }

  lemma RowPlanned(spec: Spec, lower: char -> char, m: Manifest, rows: seq<Row>, n: nat)
    requires n < |rows| && DistinctRows(rows) && IsManifestOf(spec, m, rows[..n]) && RowFits(spec, lower, m.entries, rows[n])
    ensures IsManifestOf(spec, Extended(spec, lower, m, rows[n], FindingsOf(spec, rows[..n])), rows[..n + 1])
  {
    FindingsStep(spec, rows, n);
    OneMoreRow(rows, n);
    hide FilesAre, EntriesAre, RowFiles, RowEntries, RowIdsOf, FindingsOf, RowFits, DistinctRows;
    RowFilesAdded(spec, m.files, RowIdsOf(rows[..n]), FindingsOf(spec, rows[..n]), rows[n]);
    RowEntryAdded(spec, lower, m.entries, rows, n);
  }

  lemma {:induction false} PlannedUpTo(spec: Spec, lower: char -> char, rows: seq<Row>, n: nat)
    requires n <= |rows| && DistinctRows(rows) && Fits(spec, lower, rows)
    ensures IsManifestOf(spec, Planned(spec, lower, rows[..n]), rows[..n])
    decreases n
  {
    hide IsManifestOf, Planned, DistinctRows, Fits, RowFits, Extended, FindingsOf;
    if n == 0 {
      NothingPlanned(spec, lower, rows);
    } else {
      PlannedUpTo(spec, lower, rows, n - 1);
      PlannedStep(spec, lower, rows, n - 1);
      FitsRow(spec, lower, rows, n - 1);
      RowPlanned(spec, lower, Planned(spec, lower, rows[..n - 1]), rows, n - 1);
    }
  }

  /** A finished manifest: within both budgets, with one sidecar of each wanted role for each
      member and one for each finding revision of a member, one entry with the object's size,
      digest and reason for each wanted member, no path of an entry twice, and nothing else. */
  lemma ManifestIsExact(spec: Spec, lower: char -> char, rows: seq<Row>)
    requires DistinctRows(rows) && Fits(spec, lower, rows)
    ensures var m := Planned(spec, lower, rows);
            && |m.entries| + |m.files| <= spec.maxFiles && FileSum(m.files) + EntrySum(m.entries) <= spec.maxBytes as int
            && IsManifestOf(spec, m, rows)
  {
    PlannedUpTo(spec, lower, rows, |rows|);
    assert rows[..|rows|] == rows;
    hide Planned, IsManifestOf, FileSum, EntrySum, RowFits, DistinctRows;
  }

  /** Told on the request: a member's bytes are written exactly when it has an object, bytes are
      asked for and, under the sources closure, it was not met as metadata of a source; limits
      that are not positive mean 100000 files and 2 to the 40 bytes. */
  lemma WrittenAsAsked(spec: Spec, lower: char -> char, rows: seq<Row>, row: Row)
    requires DistinctRows(rows) && Fits(Effective(spec), lower, rows) && row in rows
    ensures var m := Planned(Effective(spec), lower, rows);
            && |m.entries| + |m.files| <= (if spec.maxFiles > 0 then spec.maxFiles else 100000)
            && FileSum(m.files) + EntrySum(m.entries) <= (if spec.maxBytes > 0 then spec.maxBytes as int else 0x100_0000_0000)
            && ((exists i :: 0 <= i < |m.entries| && m.entries[i].ref == row.ref) <==>
                  row.obj.Some? && spec.bytes && (spec.closure == Sources && row.reason.From? ==> row.reason.tag != SourceMetadata))
            && (HasFile(m.files, Metadata, row.ref.id) <==> spec.metadata)
            && (HasFile(m.files, Provenance, row.ref.id) <==> spec.provenance)
            && (forall f :: f in row.findings && spec.findings ==> HasFile(m.files, Finding, f.0))
  {
    var s := Effective(spec);
    ManifestIsExact(s, lower, rows);
    var m := Planned(s, lower, rows);
    EntryIfWanted(s, m, rows, row);
    SidecarsIfAsked(s, m, rows, row);
    EffectiveMeans(spec, row);
    hide Planned, Fits, HasFile, FileSum, EntrySum, IsManifestOf, DistinctRows, Effective, Wanted;
  }

  lemma EffectiveMeans(spec: Spec, row: Row)
    ensures var s := Effective(spec);
            && s.maxFiles == (if spec.maxFiles > 0 then spec.maxFiles else 100000)
            && s.maxBytes as int == (if spec.maxBytes > 0 then spec.maxBytes as int else 0x100_0000_0000)
            && s.metadata == spec.metadata && s.provenance == spec.provenance && s.findings == spec.findings
            && (Wanted(s, row) <==>
                  row.obj.Some? && spec.bytes && (spec.closure == Sources && row.reason.From? ==> row.reason.tag != SourceMetadata))
  {
  }

  lemma EntryIfWanted(spec: Spec, m: Manifest, rows: seq<Row>, row: Row)
    requires DistinctRows(rows) && IsManifestOf(spec, m, rows) && row in rows
    ensures (exists i :: 0 <= i < |m.entries| && m.entries[i].ref == row.ref) <==> Wanted(spec, row)
  {
    hide FilesAre, Wanted;
    var k :| 0 <= k < |rows| && rows[k] == row;
    if i :| 0 <= i < |m.entries| && m.entries[i].ref == row.ref {
      assert HasRow(spec, rows, m.entries[i]);
      var l :| 0 <= l < |rows| && Wanted(spec, rows[l]) && IsEntryOf(m.entries[i], rows[l]);
      assert l == k;
    }
    if Wanted(spec, row) {
      assert HasEntry(m.entries, rows[k]);
    }
  }

  lemma SidecarsIfAsked(spec: Spec, m: Manifest, rows: seq<Row>, row: Row)
    requires IsManifestOf(spec, m, rows) && row in rows
    ensures HasFile(m.files, Metadata, row.ref.id) <==> spec.metadata
    ensures HasFile(m.files, Provenance, row.ref.id) <==> spec.provenance
    ensures forall f :: f in row.findings && spec.findings ==> HasFile(m.files, Finding, f.0)
  {
    hide EntriesAre, HasFile, NoneTwice;
    assert row.ref.id in RowIdsOf(rows);
    assert forall f :: f in row.findings && spec.findings ==> f.0 in FindingsOf(spec, rows);
  }

  ghost predicate MintedRows(rows: seq<Row>) {
    forall i :: 0 <= i < |rows| ==>
      Minted(rows[i].ref.id.text) && forall j :: 0 <= j < |rows[i].findings| ==> Minted(rows[i].findings[j].0.text)
  }

  lemma MintedRow(rows: seq<Row>, i: nat)
    requires MintedRows(rows) && i < |rows|
    ensures Minted(rows[i].ref.id.text)
  {
  }

  function ByIdPath(ref: Ref, name: string): string {
    "data/by-id/" + Sanitize(KindName(ref.kind)) + "/" + Sanitize(ref.id.text) + "/" + name
  }

  ghost predicate IsById(e: Entry) {
    Minted(e.ref.id.text) && exists name :: '/' !in name && e.path == ByIdPath(e.ref, name)
  }

  ghost predicate AllById(entries: seq<Entry>) {
    forall i :: 0 <= i < |entries| ==> IsById(entries[i])
  }

  // ---- Paths by identifier ----

  /** A path by identifier and its four directories, in lower case. */
  lemma ByIdParts(lower: char -> char, ref: Ref, name: string)
    requires Folds(lower) && Minted(ref.id.text) && '/' !in name
    ensures Split(Lowered(lower, ByIdPath(ref, name)), '/')
            == [Lowered(lower, "data"), Lowered(lower, "by-id"), Lowered(lower, Sanitize(KindName(ref.kind))), ref.id.text, Lowered(lower, name)]
  {
    hide Sanitize, Split;
    MintedIsKept(ref.id.text);
    var kind, id := Sanitize(KindName(ref.kind)), ref.id.text;
    SanitizedIsSafe(KindName(ref.kind));
    Bag.SafeHasNoSlash(kind);
    NoSlashInMinted(id);
    MintedIsLower(lower, id);
    SplitFive("data", "by-id", kind, id, name);
    assert ByIdPath(ref, name) == "data" + "/" + "by-id" + "/" + kind + "/" + id + "/" + name;
    SplitLowered(lower, ByIdPath(ref, name));
  }

  lemma NoSlashInMinted(id: string)
    requires Minted(id)
    ensures '/' !in id
  {
  }

  lemma MintedIsLower(lower: char -> char, id: string)
    requires Folds(lower) && Minted(id)
    ensures Lowered(lower, id) == id
  {
  }

  lemma SplitFive(a: string, b: string, c: string, d: string, e: string)
    requires '/' !in a && '/' !in b && '/' !in c && '/' !in d && '/' !in e
    ensures Split(a + "/" + b + "/" + c + "/" + d + "/" + e, '/') == [a, b, c, d, e]
  {
    hide Split;
    SplitPlain(e, '/');
    SplitPrefix(d, e, '/');
    SplitPrefix(c, d + ['/'] + e, '/');
    SplitPrefix(b, c + ['/'] + (d + ['/'] + e), '/');
    SplitPrefix(a, b + ['/'] + (c + ['/'] + (d + ['/'] + e)), '/');
    assert a + "/" + b + "/" + c + "/" + d + "/" + e == a + ['/'] + (b + ['/'] + (c + ['/'] + (d + ['/'] + e)));
  }

  function LoweredParts(lower: char -> char, parts: seq<string>): seq<string> {
    seq(|parts|, i requires 0 <= i < |parts| => Lowered(lower, parts[i]))
  }

  /** Lower case neither makes nor removes a slash. */
  lemma {:induction false} SplitLowered(lower: char -> char, s: string)
    requires Folds(lower)
    ensures Split(Lowered(lower, s), '/') == LoweredParts(lower, Split(s, '/'))
    decreases |s|
  {
    if s != "" {
      SplitLowered(lower, s[1..]);
      assert lower(s[0]) == '/' <==> s[0] == '/';
      assert Lowered(lower, s)[1..] == Lowered(lower, s[1..]);
      LoweredHead(lower, s[0], Split(s[1..], '/'));
    }
  }

  lemma LoweredHead(lower: char -> char, ch: char, rest: seq<string>)
    requires rest != []
    ensures LoweredParts(lower, [""] + rest) == [""] + LoweredParts(lower, rest)
    ensures LoweredParts(lower, [[ch] + rest[0]] + rest[1..])
            == [[lower(ch)] + LoweredParts(lower, rest)[0]] + LoweredParts(lower, rest)[1..]
  {
    assert Lowered(lower, [ch] + rest[0]) == [lower(ch)] + Lowered(lower, rest[0]);
    assert Lowered(lower, "") == "";
  }

  /** Distinct members never share a path by identifier, even ignoring case. */
  lemma ByIdPathsDiffer(lower: char -> char, a: Entry, b: Entry)
    requires Folds(lower) && IsById(a) && IsById(b) && a.ref.id != b.ref.id
    ensures Lowered(lower, a.path) != Lowered(lower, b.path)
  {
    hide Folds, Minted, ByIdPath, Split, Lowered, Sanitize;
    var n :| '/' !in n && a.path == ByIdPath(a.ref, n);
    var m :| '/' !in m && b.path == ByIdPath(b.ref, m);
    ByIdParts(lower, a.ref, n);
    ByIdParts(lower, b.ref, m);
    assert Split(Lowered(lower, a.path), '/')[3] == a.ref.id.text;
    assert Split(Lowered(lower, b.path), '/')[3] == b.ref.id.text;
  }

  lemma FileNameHasNoSlash(o: Obj)
    ensures '/' !in FileName(o)
  {
    hide Sanitize;
    SanitizedIsSafe(o.name);
    Bag.SafeHasNoSlash(Sanitize(o.name));
    SanitizedIsSafe(LastPart(SlashesOf(o.path)));
    Bag.SafeHasNoSlash(Sanitize(LastPart(SlashesOf(o.path))));
  }

  /** Under the by-id layout the collision rule never applies. */
  lemma ByIdStep(spec: Spec, lower: char -> char, entries: seq<Entry>, rows: seq<Row>, n: nat)
    requires spec.layout.ById? && Folds(lower) && AllById(entries) && n < |rows| && Minted(rows[n].ref.id.text)
    requires forall i :: 0 <= i < |entries| ==> entries[i].ref.id != rows[n].ref.id
    ensures AllById(entries + RowEntries(spec, lower, entries, rows[n]))
  {
    hide Folds, Minted, Lowered, IsById, ProjectionPath, Wanted;
    var row := rows[n];
    if Wanted(spec, row) {
      var e := ByIdEntry(spec, lower, entries, row);
      assert RowEntries(spec, lower, entries, row) == [e];
    } else {
      NoEntry(spec, lower, entries, row);
      assert entries + [] == entries;
    }
  }

  lemma ByIdEntry(spec: Spec, lower: char -> char, entries: seq<Entry>, row: Row) returns (e: Entry)
    requires spec.layout.ById? && Folds(lower) && AllById(entries) && Minted(row.ref.id.text) && Wanted(spec, row)
    requires forall i :: 0 <= i < |entries| ==> entries[i].ref.id != row.ref.id
    ensures RowEntries(spec, lower, entries, row) == [e] && IsById(e)
  {
    hide Folds, Minted, Lowered, IsById, ProjectionPath;
    var o := row.obj.value;
    var logical := ProjectionPath(ById, row.ref, o, row.evidence);
    e := Entry(row.ref, logical, o.size, o.digest, row.reason);
    ByIdIsById(e, row, o);
    if Lowered(lower, logical) in UsedPaths(lower, entries) {
      var i :| 0 <= i < |entries| && Lowered(lower, entries[i].path) == Lowered(lower, logical);
      ByIdPathsDiffer(lower, entries[i], e);
      assert false;
    }
  }

  lemma ByIdIsById(e: Entry, row: Row, o: Obj)
    requires e.ref == row.ref && Minted(row.ref.id.text) && e.path == ProjectionPath(ById, row.ref, o, row.evidence)
    ensures IsById(e)
  {
    hide Minted, Sanitize, FileName;
    FileNameHasNoSlash(o);
    assert e.path == ByIdPath(row.ref, FileName(o));
  }

  lemma {:induction false} PlannedById(spec: Spec, lower: char -> char, rows: seq<Row>, n: nat)
    requires n <= |rows| && spec.layout.ById? && Folds(lower) && DistinctRows(rows) && MintedRows(rows) && Fits(spec, lower, rows)
    ensures AllById(Planned(spec, lower, rows[..n]).entries)
    decreases n
  {
    hide Folds, MintedRows, Fits, Planned, AllById, FindingsOf, IsManifestOf;
    if n > 0 {
      PlannedById(spec, lower, rows, n - 1);
      PlannedStep(spec, lower, rows, n - 1);
      PlannedUpTo(spec, lower, rows, n - 1);
      var m := Planned(spec, lower, rows[..n - 1]);
      EntriesOfManifest(spec, m, rows, n - 1);
      MintedRow(rows, n - 1);
      ByIdStep(spec, lower, m.entries, rows, n - 1);
    } else {
      StartsEmpty(spec, lower, rows);
      NothingById();
    }
  }

  lemma NothingById()
    ensures AllById([])
  {
  }

  lemma EntriesOfManifest(spec: Spec, m: Manifest, rows: seq<Row>, n: nat)
    requires n < |rows| && DistinctRows(rows) && IsManifestOf(spec, m, rows[..n])
    ensures forall i :: 0 <= i < |m.entries| ==> m.entries[i].ref.id != rows[n].ref.id
  {
    hide FilesAre;
    EntriesStay(spec, m.entries, rows, n);
  }

  // ---- All paths of a manifest ----

  function PathAt(m: Manifest, i: nat): string
    requires i < |m.files| + |m.entries|
  {
    if i < |m.files| then FilePath(m.files[i]) else m.entries[i - |m.files|].path
  }

  lemma DirectoriesDiffer(lower: char -> char, a: Role, b: Role)
    requires Folds(lower)
    ensures Lowered(lower, Directory(a)) == Directory(a) && Lowered(lower, "data") == "data" && '/' !in Directory(a)
    ensures Directory(a) != "data" && (a != b ==> Directory(a) != Directory(b))
  {
  }

  /** A sidecar's path and its two parts, in lower case. */
  lemma FileParts(lower: char -> char, f: File)
    requires Folds(lower) && Minted(f.subject.text)
    ensures Split(Lowered(lower, FilePath(f)), '/') == [Directory(f.role), f.subject.text + ".json"]
  {
    hide Split, Folds, Minted, Sanitize, Directory, Lowered;
    var id := f.subject.text;
    var name := id + ".json";
    MintedIsKept(id);
    NoSlashInMinted(id);
    DirectoriesDiffer(lower, f.role, f.role);
    LowerJson(lower, id);
    SplitTwo(Directory(f.role), name);
    SplitLowered(lower, FilePath(f));
  }

  lemma SplitTwo(a: string, b: string)
    requires '/' !in a && '/' !in b
    ensures Split(a + "/" + b, '/') == [a, b]
  {
    hide Split;
    SplitPlain(b, '/');
    SplitPrefix(a, b, '/');
  }

  lemma LowerJson(lower: char -> char, id: string)
    requires Folds(lower) && Minted(id)
    ensures Lowered(lower, id + ".json") == id + ".json"
  {
    var s := id + ".json";
    forall i | 0 <= i < |s|
      ensures lower(s[i]) == s[i]
    {
      if i < |id| {
        assert s[i] == id[i];
      } else {
        assert s[i] == ".json"[i - |id|];
      }
    }
  }

  lemma FilePathsDiffer(lower: char -> char, a: File, b: File)
    requires Folds(lower) && Minted(a.subject.text) && Minted(b.subject.text)
    requires a.role != b.role || a.subject != b.subject
    ensures Lowered(lower, FilePath(a)) != Lowered(lower, FilePath(b))
  {
    hide Folds, Minted, FilePath, Lowered, Split;
    FileParts(lower, a);
    FileParts(lower, b);
    if a.role != b.role {
      DirectoriesDiffer(lower, a.role, b.role);
      assert Split(Lowered(lower, FilePath(a)), '/')[0] != Split(Lowered(lower, FilePath(b)), '/')[0];
    } else {
      assert (a.subject.text + ".json")[..|a.subject.text|] == a.subject.text;
      assert (b.subject.text + ".json")[..|b.subject.text|] == b.subject.text;
      assert Split(Lowered(lower, FilePath(a)), '/')[1] != Split(Lowered(lower, FilePath(b)), '/')[1];
    }
  }

  lemma FileAndEntryDiffer(lower: char -> char, f: File, e: Entry)
    requires Folds(lower) && Minted(f.subject.text) && IsById(e)
    ensures Lowered(lower, FilePath(f)) != Lowered(lower, e.path)
  {
    hide Folds, Minted, FilePath, Lowered, Split, ByIdPath;
    var n :| '/' !in n && e.path == ByIdPath(e.ref, n);
    FileParts(lower, f);
    ByIdParts(lower, e.ref, n);
    DirectoriesDiffer(lower, f.role, f.role);
    assert Split(Lowered(lower, FilePath(f)), '/')[0] != Split(Lowered(lower, e.path), '/')[0];
  }

  lemma SubjectsAreMinted(spec: Spec, rows: seq<Row>, m: Manifest, k: nat)
    requires IsManifestOf(spec, m, rows) && MintedRows(rows) && k < |m.files|
    ensures Minted(m.files[k].subject.text)
  {
    hide Minted, NoneTwice, EntriesAre;
    var f := m.files[k];
    assert HasFile(m.files, f.role, f.subject);
    hide HasFile;
    if f.role.Finding? {
      var r, x :| r in rows && x in r.findings && x.0 == f.subject;
      var i :| 0 <= i < |rows| && rows[i] == r;
      var j :| 0 <= j < |r.findings| && r.findings[j] == x;
    } else {
      var r :| r in rows && r.ref.id == f.subject;
      var i :| 0 <= i < |rows| && rows[i] == r;
    }
  }

  /** Under the by-id layout no two paths of a finished manifest, of files or of sidecars, are
      equal even ignoring case. */
  lemma ManifestPathsDiffer(spec: Spec, lower: char -> char, rows: seq<Row>, i: nat, j: nat)
    requires spec.layout.ById? && Folds(lower) && DistinctRows(rows) && MintedRows(rows) && Fits(spec, lower, rows)
    requires var m := Planned(spec, lower, rows); i < j < |m.files| + |m.entries|
    ensures var m := Planned(spec, lower, rows); Lowered(lower, PathAt(m, i)) != Lowered(lower, PathAt(m, j))
  {
    hide Folds, Minted, Lowered, IsById, FileSum, EntrySum, MintedRows, Fits, Planned, IsManifestOf, FilePath;
    var m := Planned(spec, lower, rows);
    ManifestIsExact(spec, lower, rows);
    PlannedById(spec, lower, rows, |rows|);
    assert rows[..|rows|] == rows;
    NothingListedTwice(spec, m, rows);
    if i < |m.files| {
      SubjectsAreMinted(spec, rows, m, i);
    }
    if j < |m.files| {
      SubjectsAreMinted(spec, rows, m, j);
      FilePathsDiffer(lower, m.files[i], m.files[j]);
    } else if i < |m.files| {
      FileAndEntryDiffer(lower, m.files[i], m.entries[j - |m.files|]);
    } else {
      ByIdPathsDiffer(lower, m.entries[i - |m.files|], m.entries[j - |m.files|]);
    }
  }

  lemma NothingListedTwice(spec: Spec, m: Manifest, rows: seq<Row>)
    requires IsManifestOf(spec, m, rows)
    ensures NoneTwice(m.files) && forall i, j :: 0 <= i < j < |m.entries| ==> m.entries[i].ref.id != m.entries[j].ref.id
  {
    hide HasFile, HasRow, HasEntry, NoneTwice;
  }
}
