/** Where a materialization writes the bytes of a member, part by part, for each layout. */
module WrittenPaths {
  import opened Common
  import opened Order
  import opened Paths
  import opened Materialization
  import Bag
  import QueryMeaning

  // ---- Names ----

  /** The last ten characters of an identifier, or all of a shorter one. */
  ghost predicate IsTail(id: string, tail: string) {
    |tail| == (if |id| < 10 then |id| else 10) && tail == id[|id| - |tail|..]
  }

  predicate IsSeparator(ch: char) {
    ch == '/' || ch == '\\'
  }

  /** The text after the last slash or backslash, or all of it. */
  ghost predicate IsLastPart(path: string, last: string) {
    |last| <= |path| && path[|path| - |last|..] == last && (forall i :: 0 <= i < |last| ==> !IsSeparator(last[i]))
    && (|last| < |path| ==> IsSeparator(path[|path| - |last| - 1]))
  }

  lemma {:induction false} LastOfSplit(s: string, sep: char)
    ensures var parts := Split(s, sep);
            var last := parts[|parts| - 1];
            && |last| <= |s| && s[|s| - |last|..] == last && (|last| < |s| ==> s[|s| - |last| - 1] == sep)
            && (|parts| > 1 ==> |last| < |s|)
    decreases |s|
  {
    if s != "" {
      LastOfSplit(s[1..], sep);
      OnePartIsAll(s[1..], sep);
      SplitStep(s, sep);
      var rest := Split(s[1..], sep);
      var parts := Split(s, sep);
      hide Split;
      var last := rest[|rest| - 1];
      if s[0] != sep && |rest| == 1 {
        assert parts == [[s[0]] + rest[0]] && parts[0] == s;
      } else {
        assert parts[|parts| - 1] == last;
        assert s[1..][|s| - 1 - |last|..] == s[|s| - |last|..];
      }
    }
  }

  lemma {:induction false} OnePartIsAll(s: string, sep: char)
    ensures |Split(s, sep)| == 1 ==> Split(s, sep)[0] == s
    decreases |s|
  {
    if s != "" {
      OnePartIsAll(s[1..], sep);
    }
  }

  /** The name of a file: the sanitized display name, or where that leaves only an underscore
      the sanitized last part of the object's path, if it has one. */
  lemma NameSays(o: Obj) returns (last: string)
    ensures IsLastPart(o.path, last)
    ensures FileName(o) == if Sanitize(o.name) == "_" && o.path != "" then Sanitize(last) else Sanitize(o.name)
    ensures SafeComponent(FileName(o)) && '/' !in FileName(o)
  {
    SanitizedIsSafe(o.name);
    hide Sanitize, SafeComponent, Split;
    var cut := LastPart(SlashesOf(o.path));
    last := LastPartSays(o.path);
    SanitizedIsSafe(cut);
    Bag.SafeHasNoSlash(FileName(o));
  }

  lemma LastPartSays(path: string) returns (last: string)
    ensures IsLastPart(path, last) && last == LastPart(SlashesOf(path))
  {
    var s := SlashesOf(path);
    LastOfSplit(s, '/');
    var parts := Split(s, '/');
    hide Split;
    last := parts[|parts| - 1];
    assert last in parts;
    var n := |s| - |last|;
    forall i | 0 <= i < |last|
      ensures last[i] == path[n + i] && !IsSeparator(last[i])
    {
      assert s[n..][i] == s[n + i];
      assert last[i] in last;
    }
    assert path[n..] == last;
  }

  // ---- Logical paths ----

  predicate IsDots(part: string) {
    part == "" || part == "." || part == ".."
  }

  lemma KeptStep(parts: seq<string>)
    requires parts != []
    ensures SanitizeParts(parts) == (if IsDots(parts[0]) then [] else [Sanitize(parts[0])]) + SanitizeParts(parts[1..])
  {
    hide Sanitize;
  }

  lemma KeptPart(part: string)
    ensures SanitizeParts([]) == [] && SanitizeParts([part]) == if IsDots(part) then [] else [Sanitize(part)]
  {
    KeptStep([part]);
    hide Sanitize;
    assert [part][1..] == [];
  }

  /** The parts of a path are kept in order, each sanitized, but for empty ones and dots. */
  lemma {:induction false} KeptParts(a: seq<string>, b: seq<string>)
    ensures SanitizeParts(a + b) == SanitizeParts(a) + SanitizeParts(b)
    decreases |a|
  {
    hide SanitizeParts, Sanitize;
    if a == [] {
      KeptPart("");
      assert a + b == b;
    } else {
      var rest := a[1..];
      KeptParts(rest, b);
      KeptStep(a);
      KeptStep(a + b);
      assert (a + b)[1..] == rest + b && (a + b)[0] == a[0];
      Associate(if IsDots(a[0]) then [] else [Sanitize(a[0])], SanitizeParts(rest), SanitizeParts(b));
    }
  }

  lemma Associate(x: seq<string>, y: seq<string>, z: seq<string>)
    ensures (x + y) + z == x + (y + z)
  {
  }

  lemma {:induction false} KeptPartsAreSafe(parts: seq<string>)
    ensures forall i :: 0 <= i < |SanitizeParts(parts)| ==> SafeComponent(SanitizeParts(parts)[i]) && '/' !in SanitizeParts(parts)[i]
    decreases |parts|
  {
    if parts != [] {
      KeptPartsAreSafe(parts[1..]);
      KeptStep(parts);
      SanitizedIsSafe(parts[0]);
      hide Sanitize, SanitizeParts, SafeComponent;
      Bag.SafeHasNoSlash(Sanitize(parts[0]));
    }
  }

  // ---- Layouts ----

  /** The parts of the path of a member's bytes. */
  ghost function PathParts(layout: Layout, ref: Ref, name: string, tail: string, kept: seq<string>, evidence: string): seq<string> {
    match layout
    case ById => ["data", "by-id", Sanitize(KindName(ref.kind)), Sanitize(ref.id.text), name]
    case ByEvidence =>
      ["data", "by-evidence", Sanitize(if evidence == "" then "unassigned" else evidence)] + if kept == [] then [name] else kept
    case Flat => ["data", "flat", name + "~" + tail]
  }

  /** A path of a part without slashes and more parts. */
  lemma FirstPart(part: string, rest: seq<string>)
    requires rest != []
    ensures Join([part] + rest, '/') == part + "/" + Join(rest, '/')
  {
    assert ([part] + rest)[1..] == rest;
  }

  lemma LastPartAlone(part: string)
    ensures Join([part], '/') == part
  {
  }

  /** Each layout writes to the path with these parts: by kind and identifier, by evidence and
      the object's own path, or all in one directory under the end of the identifier. */
  lemma LayoutSays(layout: Layout, ref: Ref, o: Obj, evidence: string, tail: string)
    requires IsTail(ref.id.text, tail)
    ensures ProjectionPath(layout, ref, o, evidence)
            == Join(PathParts(layout, ref, FileName(o), tail, SanitizeParts(Split(SlashesOf(o.path), '/')), evidence), '/')
  {
    var name := FileName(o);
    var kept := SanitizeParts(Split(SlashesOf(o.path), '/'));
    hide Sanitize, SanitizeParts, FileName, Split, SafeComponent;
    match layout
    case ById => FiveParts("data", "by-id", Sanitize(KindName(ref.kind)), Sanitize(ref.id.text), name);
    case ByEvidence => EvidenceLayout(ref, o, evidence);
    case Flat => FlatLayout(ref, o, evidence, tail);
  }

  lemma FlatLayout(ref: Ref, o: Obj, evidence: string, tail: string)
    requires IsTail(ref.id.text, tail)
    ensures ProjectionPath(Flat, ref, o, evidence) == Join(["data", "flat", FileName(o) + "~" + tail], '/')
  {
    hide FileName;
    var id := ref.id.text;
    assert id[0..] == id;
    assert ShortId(id) == tail;
    Bag.JoinThree("data", "flat", FileName(o) + "~" + tail);
    assert "data/flat/" == "data" + "/" + "flat" + "/";
  }

  lemma EvidenceLayout(ref: Ref, o: Obj, evidence: string)
    ensures var kept := SanitizeParts(Split(SlashesOf(o.path), '/'));
            ProjectionPath(ByEvidence, ref, o, evidence)
            == Join(["data", "by-evidence", Sanitize(if evidence == "" then "unassigned" else evidence)]
                    + (if kept == [] then [FileName(o)] else kept), '/')
  {
    hide Sanitize, SanitizeParts, FileName, Split, Join;
    var kept := SanitizeParts(Split(SlashesOf(o.path), '/'));
    var under := Sanitize(if evidence == "" then "unassigned" else evidence);
    JoinOfKept(Split(SlashesOf(o.path), '/'));
    LastPartAlone(FileName(o));
    var rest := if kept == [] then [FileName(o)] else kept;
    ThreeAndRest("data", "by-evidence", under, rest);
    assert "data/by-evidence/" == "data" + "/" + "by-evidence" + "/";
  }

  lemma JoinOfKept(parts: seq<string>)
    ensures Join(SanitizeParts(parts), '/') == "" <==> SanitizeParts(parts) == []
  {
    KeptPartsAreSafe(parts);
    hide SanitizeParts;
    JoinOfSafe(SanitizeParts(parts));
  }

  lemma JoinOfSafe(kept: seq<string>)
    requires forall i :: 0 <= i < |kept| ==> SafeComponent(kept[i])
    ensures Join(kept, '/') == "" <==> kept == []
  {
  }

  lemma FiveParts(a: string, b: string, c: string, d: string, e: string)
    requires a == "data" && b == "by-id"
    ensures Join([a, b, c, d, e], '/') == "data/by-id/" + c + "/" + d + "/" + e
  {
    ThreeAndRest(a, b, c, [d, e]);
    FirstPart(d, [e]);
    LastPartAlone(e);
    assert [d] + [e] == [d, e];
    assert [a, b, c] + [d, e] == [a, b, c, d, e];
    assert "data/by-id/" == "data" + "/" + "by-id" + "/";
  }

  lemma ThreeAndRest(a: string, b: string, c: string, rest: seq<string>)
    requires rest != []
    ensures Join([a, b, c] + rest, '/') == a + "/" + b + "/" + c + "/" + Join(rest, '/')
  {
    FirstPart(c, rest);
    FirstPart(b, [c] + rest);
    FirstPart(a, [b] + ([c] + rest));
    assert [a, b, c] + rest == [a] + ([b] + ([c] + rest));
  }

  /** No name leads out of the target directory: the path is its own clean form, made of safe
      names, whatever the display names, object paths and evidence identifiers are. */
  lemma PathStaysInside(layout: Layout, ref: Ref, o: Obj, evidence: string)
    requires '/' !in ref.id.text
    ensures var p := ProjectionPath(layout, ref, o, evidence); Bag.Clean(p) == p && Bag.WithinBag(p)
  {
    var id := ref.id.text;
    var tail := if |id| < 10 then id else id[|id| - 10..];
    assert '/' !in tail;
    LayoutSays(layout, ref, o, evidence, tail);
    var kept := SanitizeParts(Split(SlashesOf(o.path), '/'));
    var parts := PathParts(layout, ref, FileName(o), tail, kept, evidence);
    var p := ProjectionPath(layout, ref, o, evidence);
    PartsAreNames(layout, ref, o, tail, kept, evidence);
    hide ProjectionPath, PathParts, SanitizeParts, Split, SafeComponent;
    SplitJoin(parts, '/');
    assert p != "" && p[0] != '/' by {
      Bag.SplitParts("");
      StartsWithName(parts);
    }
    Bag.CleanMeans(p);
  }

  lemma StartsWithName(parts: seq<string>)
    requires parts != [] && parts[0] != "" && '/' !in parts[0]
    ensures Join(parts, '/') != "" && Join(parts, '/')[0] != '/'
  {
    assert Join(parts, '/')[0] == parts[0][0];
    assert parts[0][0] in parts[0];
  }

  lemma PartsAreNames(layout: Layout, ref: Ref, o: Obj, tail: string, kept: seq<string>, evidence: string)
    requires '/' !in tail && kept == SanitizeParts(Split(SlashesOf(o.path), '/'))
    ensures var parts := PathParts(layout, ref, FileName(o), tail, kept, evidence);
            Bag.NamesOnly(parts) && parts != [] && forall i :: 0 <= i < |parts| ==> '/' !in parts[i]
  {
    var last := NameSays(o);
    KeptPartsAreSafe(Split(SlashesOf(o.path), '/'));
    var under := if evidence == "" then "unassigned" else evidence;
    SafeName(KindName(ref.kind));
    SafeName(ref.id.text);
    SafeName(under);
    hide Sanitize, SanitizeParts, FileName, Split, SafeComponent;
    SafeIsName(FileName(o));
    forall i | 0 <= i < |kept|
      ensures IsName(kept[i])
    {
      SafeIsName(kept[i]);
    }
    NamedParts(layout, ref, FileName(o), tail, kept, evidence);
  }

  lemma NamedParts(layout: Layout, ref: Ref, name: string, tail: string, kept: seq<string>, evidence: string)
    requires IsName(name) && '/' !in tail && (forall i :: 0 <= i < |kept| ==> IsName(kept[i]))
    requires IsName(Sanitize(KindName(ref.kind))) && IsName(Sanitize(ref.id.text))
    requires IsName(Sanitize(if evidence == "" then "unassigned" else evidence))
    ensures var parts := PathParts(layout, ref, name, tail, kept, evidence);
            Bag.NamesOnly(parts) && parts != [] && forall i :: 0 <= i < |parts| ==> '/' !in parts[i]
  {
    hide Sanitize;
    if layout.Flat? {
      var flat := name + "~" + tail;
      assert flat[|name|] == '~';
    }
  }

  predicate IsName(part: string) {
    part != "" && part != "." && part != ".." && '/' !in part
  }

  lemma SafeIsName(part: string)
    requires SafeComponent(part)
    ensures IsName(part)
  {
    Bag.SafeHasNoSlash(part);
  }

  lemma SafeName(s: string)
    ensures IsName(Sanitize(s))
  {
    SanitizedIsSafe(s);
    hide Sanitize;
    SafeIsName(Sanitize(s));
  }

  // ---- Collisions ----

  /** Where another file has the path already, the end of the identifier goes in front of the
      extension, or to the end if the name has none. */
  lemma CollisionSays(path: string, id: string) returns (stem: string, ext: string, tail: string)
    ensures path == stem + ext && IsTail(id, tail) && AddIdCollision(path, id) == stem + "~" + tail + ext
    ensures if ext == "" then forall k: nat :: !QueryMeaning.ExtensionAt(path, k) else QueryMeaning.ExtensionAt(path, |stem|)
  {
    QueryMeaning.ExtensionIsCut(path);
    tail := if |id| < 10 then id else id[|id| - 10..];
    ext := Queries.Extension(path);
    if ext == "" {
      stem := path;
    } else {
      var k: nat :| QueryMeaning.ExtensionAt(path, k);
      stem := path[..k];
      assert ext == path[k..];
    }
  }

  /** The layout's path is taken, ignoring case, by an entry. */
  ghost predicate IsTaken(lower: char -> char, entries: seq<Entry>, path: string) {
    exists i :: 0 <= i < |entries| && Lowered(lower, entries[i].path) == Lowered(lower, path)
  }

  /** A wanted member adds one entry to those of the members before it: its object's size, digest
      and reason under the layout's path, or if that is taken under the path for a collision. */
  lemma EntrySays(spec: Spec, lower: char -> char, rows: seq<Row>, k: nat)
    requires k < |rows| && Wanted(spec, rows[k])
    ensures var before, row := Planned(spec, lower, rows[..k]).entries, rows[k];
            var o, path := row.obj.value, ProjectionPath(spec.layout, row.ref, row.obj.value, row.evidence);
            Planned(spec, lower, rows[..k + 1]).entries
            == before + [Entry(row.ref, if IsTaken(lower, before, path) then AddIdCollision(path, row.ref.id.text) else path,
                               o.size, o.digest, row.reason)]
  {
    PlannedStep(spec, lower, rows, k);
    hide Planned, RowFiles, AddIdCollision, ProjectionPath, Lowered, Wanted;
    var before, row := Planned(spec, lower, rows[..k]).entries, rows[k];
    TakenMeans(lower, before, ProjectionPath(spec.layout, row.ref, row.obj.value, row.evidence));
  }

  lemma TakenMeans(lower: char -> char, entries: seq<Entry>, path: string)
    ensures Lowered(lower, path) in UsedPaths(lower, entries) <==> IsTaken(lower, entries, path)
  {
    hide Lowered;
    if e :| e in entries && Lowered(lower, e.path) == Lowered(lower, path) {
      var i :| 0 <= i < |entries| && entries[i] == e;
    }
    if i :| 0 <= i < |entries| && Lowered(lower, entries[i].path) == Lowered(lower, path) {
      assert entries[i] in entries;
    }
  }

  // ---- Sidecars ----

  /** A sidecar is written as JSON under the directory of its role, named for what it describes. */
  lemma SidecarSays(f: File)
    ensures var directory := if f.role == Metadata then "metadata" else if f.role == Provenance then "provenance" else "findings";
            Split(FilePath(f), '/') == [directory, Sanitize(f.subject.text) + ".json"]
  {
    SafeName(f.subject.text);
    hide Sanitize, Split;
    TwoParts(Directory(f.role), Sanitize(f.subject.text) + ".json");
  }

  lemma TwoParts(a: string, b: string)
    requires '/' !in a && '/' !in b
    ensures Split(a + "/" + b, '/') == [a, b]
  {
    SplitPrefix(a, b, '/');
    SplitPlain(b, '/');
  }
}
