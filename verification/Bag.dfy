/** BagIt packages (RFC 8493): the manifest an export writes and the reader that checks it. */
module Bag {
  import opened Common
  import opened Order
  import opened Paths
  import opened Provenance
  import opened Catalog
  import Cas

  datatype Node = Regular(content: string) | Symlink | Directory

  /** A package directory by relative path. */
  type Files = map<string, Node>

  // ---- Paths in a bag ----

  function CleanStep(stack: seq<string>, part: string, rooted: bool): seq<string> {
    if part == "" || part == "." then stack
    else if part == ".." then
      if stack != [] && stack[|stack| - 1] != ".." then stack[..|stack| - 1]
      else if rooted then stack else stack + [part]
    else stack + [part]
  }

  function CleanParts(stack: seq<string>, parts: seq<string>, rooted: bool): seq<string>
    decreases |parts|
  {
    if parts == [] then stack else CleanParts(CleanStep(stack, parts[0], rooted), parts[1..], rooted)
  }

  /** path.Clean */
  function Clean(p: string): string {
    if p == "" then "."
    else
      var rooted := p[0] == '/';
      var out := Join(CleanParts([], Split(p, '/'), rooted), '/');
      if rooted then "/" + out else if out == "" then "." else out
  }

  predicate HasPrefix(s: string, prefix: string) {
    |prefix| <= |s| && s[..|prefix|] == prefix
  }

  const DATA := "data/"
  const TAG_MANIFEST := "tagmanifest-sha256.txt"
  const MANIFEST := "manifest-sha256.txt"
  const DECLARATION := "bagit.txt"
  const BAG_INFO := "bag-info.txt"

  /** safeBagPath */
  predicate SafeBagPath(p: string, payload: bool) {
    && p != "" && '\\' !in p && '\0' !in p && p[0] != '/' && Clean(p) == p
    && (if payload then HasPrefix(p, DATA) else !HasPrefix(p, DATA) && p != TAG_MANIFEST)
  }

  /** pathWithin for a cleaned relative path. */
  predicate WithinBag(p: string) {
    p != ".." && !HasPrefix(p, "../")
  }

  function PayloadPath(id: string, name: string): string {
    DATA + Sanitize(id) + "/" + Sanitize(name)
  }

  lemma PlainParts(parts: seq<string>, stack: seq<string>)
    requires forall i :: 0 <= i < |parts| ==> parts[i] != "" && parts[i] != "." && parts[i] != ".."
    ensures CleanParts(stack, parts, false) == stack + parts
    decreases |parts|
  {
    if parts != [] {
      PlainParts(parts[1..], stack + [parts[0]]);
      assert stack + [parts[0]] + parts[1..] == stack + parts;
    }
  }

  /** The path of an exported payload file passes the reader's path rules. */
  lemma PayloadPathIsSafe(id: string, name: string)
    ensures SafeBagPath(PayloadPath(id, name), true) && WithinBag(PayloadPath(id, name))
    ensures Split(PayloadPath(id, name), '/') == ["data", Sanitize(id), Sanitize(name)]
    ensures forall i :: 0 <= i < |PayloadPath(id, name)| ==> !IsControl(PayloadPath(id, name)[i])
  {
    hide Sanitize, Clean, Split, SafeComponent;
    var a, b, p := Sanitize(id), Sanitize(name), PayloadPath(id, name);
    SanitizedIsSafe(id);
    SanitizedIsSafe(name);
    SplitOfThree(a, b);
    CleanOfThree(p, a, b);
    PathCharacters(a, b);
    StartsWithData(a + "/" + b);
    assert p == DATA + (a + "/" + b);
  }

  lemma StartsWithData(rest: string)
    ensures var p := DATA + rest; p[0] == 'd' && p != ".." && HasPrefix(p, DATA) && !HasPrefix(p, "../")
  {
    var p := DATA + rest;
    assert p[0] == 'd';
    assert p[..5] == DATA;
    assert "../"[0] == '.';
  }

  lemma SplitOfThree(a: string, b: string)
    requires SafeComponent(a) && SafeComponent(b)
    ensures Split(DATA + a + "/" + b, '/') == ["data", a, b]
  {
    SafeHasNoSlash(a);
    SafeHasNoSlash(b);
    hide SafeComponent, Split;
    JoinThree("data", a, b);
    SplitJoin(["data", a, b], '/');
    assert DATA + a + "/" + b == "data" + "/" + a + "/" + b;
  }

  lemma PathCharacters(a: string, b: string)
    requires SafeComponent(a) && SafeComponent(b)
    ensures var p := DATA + a + "/" + b;
            (forall i :: 0 <= i < |p| ==> p[i] != '\\' && !IsControl(p[i])) && '\\' !in p && '\0' !in p
  {
    hide SafeComponent;
    var p := DATA + a + "/" + b;
    forall i | 0 <= i < |p|
      ensures p[i] != '\\' && !IsControl(p[i])
    {
      PathCharacter(a, b, i);
    }
    assert IsControl('\0');
  }

  lemma SafeHasNoSlash(r: string)
    requires SafeComponent(r)
    ensures '/' !in r
  {
    forall i | 0 <= i < |r|
      ensures r[i] != '/'
    {
      assert AllowedInNames(r[i]);
    }
  }

  lemma JoinThree(a: string, b: string, c: string)
    ensures Join([a, b, c], '/') == a + "/" + b + "/" + c
  {
    assert [a, b, c][1..] == [b, c] && [b, c][1..] == [c];
    assert Join([b, c], '/') == b + "/" + c;
  }

  lemma CleanOfThree(p: string, a: string, b: string)
    requires SafeComponent(a) && SafeComponent(b) && p == DATA + a + "/" + b
    requires Split(p, '/') == ["data", a, b]
    ensures Clean(p) == p
  {
    hide Split, Forbidden;
    PlainParts(["data", a, b], []);
    JoinThree("data", a, b);
    assert [] + ["data", a, b] == ["data", a, b];
    assert p[0] == 'd';
  }

  lemma PathCharacter(a: string, b: string, i: nat)
    requires SafeComponent(a) && SafeComponent(b) && i < |DATA + a + "/" + b|
    ensures var p := DATA + a + "/" + b; p[i] != '\\' && !IsControl(p[i])
  {
    var p := DATA + a + "/" + b;
    if i < 5 {
      assert p[i] == DATA[i];
    } else if i < 5 + |a| {
      assert p[i] == a[i - 5];
    } else if i > 5 + |a| {
      assert p[i] == b[i - 6 - |a|];
    }
  }

  // ---- Which paths the reader accepts ----

  /** Every part between slashes is a name: not empty, and neither of the two dot names. */
  ghost predicate NamesOnly(parts: seq<string>) {
    forall i :: 0 <= i < |parts| ==> parts[i] != "" && parts[i] != "." && parts[i] != ".."
  }

  /** A path is safe when it has no backslash and no zero character, consists of names only (or
      is the bag itself), and is a payload path exactly where one is wanted. */
  lemma SafePathMeans(p: string, payload: bool)
    ensures SafeBagPath(p, payload) && WithinBag(p) <==>
      '\\' !in p && '\0' !in p && (p == "." || NamesOnly(Split(p, '/')))
      && (if payload then HasPrefix(p, "data/") else !HasPrefix(p, "data/") && p != "tagmanifest-sha256.txt")
  {
    if p == "" {
      assert Split(p, '/')[0] == "";
    } else if p[0] == '/' {
      assert Split(p, '/')[0] == "";
      assert p != ".";
    } else {
      CleanMeans(p);
    }
    hide Clean, Split, HasPrefix, NamesOnly;
  }

  /** A relative path is its own clean form, inside the bag, exactly if it consists of names. */
  lemma CleanMeans(p: string)
    requires p != "" && p[0] != '/'
    ensures Clean(p) == p && WithinBag(p) <==> p == "." || NamesOnly(Split(p, '/'))
  {
    var parts := Split(p, '/');
    var stack := CleanParts([], parts, false);
    SplitParts(p);
    StackStaysClean([], parts);
    if p == "." {
      assert parts == ["."] && Join([], '/') == "";
    } else if NamesOnly(parts) {
      PlainParts(parts, []);
      assert [] + parts == parts;
      NamesStayInside(p);
    } else if Clean(p) == p && stack != [] {
      SplitJoin(stack, '/');
      assert parts == stack;
      ClimbsOut(stack);
    }
  }

  lemma {:induction false} SplitParts(p: string)
    ensures Join(Split(p, '/'), '/') == p
    decreases |p|
  {
    if p != "" {
      SplitParts(p[1..]);
      hide Split;
      var rest := Split(p[1..], '/');
      if |rest| == 1 {
        assert [p[0]] + p[1..] == p;
      } else {
        assert ([[p[0]] + rest[0]] + rest[1..])[1..] == rest[1..];
        assert [p[0]] + (rest[0] + ['/'] + Join(rest[1..], '/')) == p;
        assert ([p[0]] + rest[0]) + ['/'] + Join(rest[1..], '/') == p;
      }
      assert ([""] + rest)[1..] == rest;
      SplitStep(p, '/');
    }
  }

  /** Clean parts: names, and before them only steps up. */
  ghost predicate CleanStack(stack: seq<string>) {
    && (forall i :: 0 <= i < |stack| ==> stack[i] != "" && stack[i] != "." && '/' !in stack[i])
    && forall i, j :: 0 <= i < j < |stack| && stack[j] == ".." ==> stack[i] == ".."
  }

  lemma {:induction false} StackStaysClean(stack: seq<string>, parts: seq<string>)
    requires CleanStack(stack) && forall p :: p in parts ==> '/' !in p
    ensures CleanStack(CleanParts(stack, parts, false))
    decreases |parts|
  {
    if parts != [] {
      assert parts[0] in parts && forall p :: p in parts[1..] ==> p in parts;
      StackStaysClean(CleanStep(stack, parts[0], false), parts[1..]);
    }
  }

  /** A stack that is not names only starts with a step up, and so does its path. */
  lemma ClimbsOut(stack: seq<string>)
    requires stack != [] && CleanStack(stack) && !NamesOnly(stack)
    ensures !WithinBag(Join(stack, '/'))
  {
    var j :| 0 <= j < |stack| && stack[j] == "..";
    assert stack[0] == "..";
    if |stack| > 1 {
      var p := Join(stack, '/');
      assert p[..3] == "../";
    }
  }

  lemma NamesStayInside(p: string)
    requires NamesOnly(Split(p, '/'))
    ensures WithinBag(p)
  {
    if !WithinBag(p) {
      StepUpIsPart(p);
    }
  }

  lemma StepUpIsPart(p: string)
    requires !WithinBag(p)
    ensures Split(p, '/')[0] == ".."
  {
    if p == ".." {
      SplitPlain("..", '/');
    } else {
      SplitPrefix("..", p[3..], '/');
      assert p == ".." + ['/'] + p[3..];
    }
  }

  // ---- Lines ----

  function DropReturn(s: string): string {
    if s != "" && s[|s| - 1] == '\r' then s[..|s| - 1] else s
  }

  function DropReturns(lines: seq<string>): (r: seq<string>)
    ensures |r| == |lines|
  {
    seq(|lines|, i requires 0 <= i < |lines| => DropReturn(lines[i]))
  }

  /** bufio.Scanner over lines: a final empty piece is no line. */
  function Lines(text: string): seq<string> {
    var parts := Split(text, '\n');
    DropReturns(if parts[|parts| - 1] == "" then parts[..|parts| - 1] else parts)
  }

  /** strings.SplitN with two spaces and a limit of two. */
  function Cut(s: string): Option<(string, string)> {
    if |s| < 2 then None
    else if s[0] == ' ' && s[1] == ' ' then Some(("", s[2..]))
    else match Cut(s[1..])
      case None => None
      case Some(r) => Some(([s[0]] + r.0, r.1))
  }

  /** The digest and the path of a manifest line. */
  function ParseLine(line: string): Option<(string, string)> {
    match Cut(line)
    case Some(r) => if |r.0| == 64 && AllHex(r.0) then Some(r) else None
    case None => None
  }

  function LineOf(digest: string, path: string): string {
    digest + "  " + path
  }

  lemma {:induction false} CutLine(digest: string, path: string)
    requires forall i :: 0 <= i < |digest| ==> digest[i] != ' '
    ensures Cut(LineOf(digest, path)) == Some((digest, path))
    decreases |digest|
  {
    var s := LineOf(digest, path);
    if digest == "" {
      assert s[2..] == path;
    } else {
      assert s[1..] == LineOf(digest[1..], path);
      CutLine(digest[1..], path);
      assert [digest[0]] + digest[1..] == digest;
    }
  }

  lemma ParsePrinted(digest: string, path: string)
    requires |digest| == 64 && AllHex(digest)
    ensures ParseLine(LineOf(digest, path)) == Some((digest, path))
  {
    CutLine(digest, path);
  }

  // ---- Writing ----

  function Printed(keys: seq<string>, payload: map<string, string>): string
    requires forall k :: k in keys ==> k in payload
  {
    if keys == [] then "" else LineOf(payload[keys[0]], keys[0]) + "\n" + Printed(keys[1..], payload)
  }

  function PrintedLines(keys: seq<string>, payload: map<string, string>): (r: seq<string>)
    requires forall k :: k in keys ==> k in payload
    ensures |r| == |keys|
  {
    seq(|keys|, i requires 0 <= i < |keys| => LineOf(payload[keys[i]], keys[i]))
  }

  /** The manifest loop over sortedKeys(payload). */
  method WriteManifest(payload: map<string, string>) returns (text: string, keys: seq<string>)
    ensures Sorted(StringLess, keys) && Elements(keys) == payload.Keys
    ensures (forall k :: k in keys ==> k in payload) && text == Printed(keys, payload)
  {
    hide Printed, StringLess;
    StringLessIsStrictTotal();
    keys := SortedRows(StringLess, payload.Keys);
    assert forall k :: k in keys ==> k in Elements(keys);
    text := PrintKeys(keys, payload);
  }

  method PrintKeys(keys: seq<string>, payload: map<string, string>) returns (text: string)
    requires forall k :: k in keys ==> k in payload
    ensures text == Printed(keys, payload)
  {
    hide Printed, LineOf;
    text := "";
    assert keys[0..] == keys;
    var i := 0;
    while i < |keys|
      invariant 0 <= i <= |keys|
      invariant text + Printed(keys[i..], payload) == Printed(keys, payload)
    {
      PrintedStep(keys, i, payload);
      var line := LineOf(payload[keys[i]], keys[i]) + "\n";
      assert text + (line + Printed(keys[i + 1..], payload)) == (text + line) + Printed(keys[i + 1..], payload);
      text := text + line;
      i := i + 1;
    }
    NothingPrinted(keys, payload);
    assert text + "" == text;
  }

  lemma PrintedStep(keys: seq<string>, i: nat, payload: map<string, string>)
    requires i < |keys| && forall k :: k in keys ==> k in payload
    ensures Printed(keys[i..], payload) == LineOf(payload[keys[i]], keys[i]) + "\n" + Printed(keys[i + 1..], payload)
  {
    assert keys[i..][1..] == keys[i + 1..];
  }

  lemma NothingPrinted(keys: seq<string>, payload: map<string, string>)
    requires forall k :: k in keys ==> k in payload
    ensures Printed(keys[|keys|..], payload) == ""
  {
  }

  /** Text that one line of a file can hold: no line feed, no carriage return at its end. */
  predicate FitsLine(s: string) {
    '\n' !in s && (s == "" || s[|s| - 1] != '\r')
  }

  /** Reading the lines of a written manifest gives the written lines. */
  lemma {:induction false} LinesOfPrinted(keys: seq<string>, payload: map<string, string>)
    requires forall k :: k in keys ==> k in payload && FitsLine(LineOf(payload[k], k))
    ensures Lines(Printed(keys, payload)) == PrintedLines(keys, payload)
  {
    SplitPrinted(keys, payload);
    var lines := PrintedLines(keys, payload);
    assert (lines + [""])[..|lines|] == lines;
    hide Printed, Split, FitsLine;
    forall i | 0 <= i < |lines|
      ensures DropReturn(lines[i]) == lines[i]
    {
      FittingLineKeepsItsEnd(lines[i]);
    }
  }

  lemma FittingLineKeepsItsEnd(s: string)
    requires FitsLine(s)
    ensures DropReturn(s) == s
  {
  }

  lemma {:induction false} SplitPrinted(keys: seq<string>, payload: map<string, string>)
    requires forall k :: k in keys ==> k in payload && FitsLine(LineOf(payload[k], k))
    ensures Split(Printed(keys, payload), '\n') == PrintedLines(keys, payload) + [""]
    decreases |keys|
  {
    if keys != [] {
      var line, rest := LineOf(payload[keys[0]], keys[0]), Printed(keys[1..], payload);
      SplitPrinted(keys[1..], payload);
      SplitPrefix(line, rest, '\n');
      assert Printed(keys, payload) == line + ['\n'] + rest;
      assert PrintedLines(keys, payload) == [line] + PrintedLines(keys[1..], payload);
    } else {
      assert PrintedLines(keys, payload) == [];
    }
  }

  // ---- Reading ----

  predicate Contains(s: string, sub: string)
    decreases |s|
  {
    HasPrefix(s, sub) || (s != "" && Contains(s[1..], sub))
  }

  /** What a line says, when it is one this reader accepts as to form and path. */
  predicate WellFormedLine(line: string, payload: bool) {
    ParseLine(line).Some? && SafeBagPath(ParseLine(line).value.1, payload) && WithinBag(ParseLine(line).value.1)
  }

  function PathOf(line: string): string {
    match ParseLine(line)
    case Some(r) => r.1
    case None => ""
  }

  function DigestOf(line: string): string {
    match ParseLine(line)
    case Some(r) => r.0
    case None => ""
  }

  ghost predicate LineOk(h: string -> string, files: Files, lines: seq<string>, i: nat, payload: bool)
    requires i < |lines|
  {
    && WellFormedLine(lines[i], payload)
    && (forall j :: 0 <= j < i ==> PathOf(lines[j]) != PathOf(lines[i]))
    && PathOf(lines[i]) in files && files[PathOf(lines[i])].Regular?
    && h(files[PathOf(lines[i])].content) == DigestOf(lines[i])
  }

  ghost predicate LinesOk(h: string -> string, files: Files, lines: seq<string>, payload: bool) {
    forall i :: 0 <= i < |lines| ==> LineOk(h, files, lines, i, payload)
  }

  function PathsOf(lines: seq<string>): set<string> {
    set l | l in lines :: PathOf(l)
  }

  datatype Issue = MissingTag | BagVersion | Malformed | UnsafePath(path: string) | DuplicatePath(path: string)
                 | MissingFile(path: string) | NotRegular(path: string) | WrongDigest(path: string)
                 | UnexpectedPayload(path: string) | PayloadLink(path: string)

  /** The line loop, the same for the payload manifest and for the tag manifest. expected holds
      every path that passed the path checks so far, even if its file is wrong. */
  method CheckLines(h: string -> string, files: Files, lines: seq<string>, payload: bool)
      returns (issues: seq<Issue>, expected: set<string>, checked: nat)
    ensures issues == [] <==> LinesOk(h, files, lines, payload)
    ensures issues == [] ==> expected == PathsOf(lines) && checked == |lines|
  {
    hide Split, Clean, SafeBagPath, ParseLine;
    issues, expected, checked := [], {}, 0;
    var i := 0;
    while i < |lines|
      invariant 0 <= i <= |lines|
      invariant issues == [] <==> forall j :: 0 <= j < i ==> LineOk(h, files, lines, j, payload)
      invariant issues == [] ==> expected == (set j | 0 <= j < i :: PathOf(lines[j])) && checked == i
    {
      var line := lines[i];
      var issue := CheckLine(h, files, line, payload, expected);
      if issues == [] {
        LineIssue(h, files, lines, i, payload, expected, issue);
      }
      if WellFormedLine(line, payload) {
        expected := expected + {PathOf(line)};
      }
      if issue.Some? {
        issues := issues + [issue.value];
      } else {
        checked := checked + 1;
      }
      i := i + 1;
    }
    PathsByIndex(lines);
  }

  lemma PathsByIndex(lines: seq<string>)
    ensures PathsOf(lines) == set j | 0 <= j < |lines| :: PathOf(lines[j])
  {
    forall j | 0 <= j < |lines|
      ensures PathOf(lines[j]) in PathsOf(lines)
    {
      assert lines[j] in lines;
    }
    forall l | l in lines
      ensures exists j :: 0 <= j < |lines| && PathOf(lines[j]) == PathOf(l)
    {
      var j :| 0 <= j < |lines| && lines[j] == l;
    }
  }

  lemma LineIssue(h: string -> string, files: Files, lines: seq<string>, i: nat, payload: bool, expected: set<string>, issue: Option<Issue>)
    requires i < |lines| && expected == (set j | 0 <= j < i :: PathOf(lines[j]))
    requires issue.None? <==> WellFormedLine(lines[i], payload) && PathOf(lines[i]) !in expected && FileMatches(h, files, lines[i])
    ensures issue.None? <==> LineOk(h, files, lines, i, payload)
  {
    hide WellFormedLine, PathOf, DigestOf;
  }

  ghost predicate FileMatches(h: string -> string, files: Files, line: string) {
    PathOf(line) in files && files[PathOf(line)].Regular? && h(files[PathOf(line)].content) == DigestOf(line)
  }

  method CheckLine(h: string -> string, files: Files, line: string, payload: bool, expected: set<string>) returns (issue: Option<Issue>)
    ensures issue.None? <==> WellFormedLine(line, payload) && PathOf(line) !in expected && FileMatches(h, files, line)
  {
    hide Split, Clean, SafeBagPath;
    var parts := ParseLine(line);
    if parts.None? {
      return Some(Malformed);
    }
    var digest, path := parts.value.0, parts.value.1;
    if !SafeBagPath(path, payload) {
      return Some(UnsafePath(path));
    }
    if path in expected {
      return Some(DuplicatePath(path));
    }
    if !WithinBag(path) {
      return Some(UnsafePath(path));
    }
    if path !in files {
      return Some(MissingFile(path));
    }
    if !files[path].Regular? {
      return Some(NotRegular(path));
    }
    if h(files[path].content) != digest {
      return Some(WrongDigest(path));
    }
    issue := None;
  }

  predicate IsText(files: Files, path: string) {
    path in files && files[path].Regular?
  }

  /** A sound package: well-formed manifests whose files are there with their digests, and under
      data/ no link and no file that the manifest does not list. */
  ghost predicate BagOk(h: string -> string, files: Files)
    requires IsText(files, MANIFEST) && IsText(files, TAG_MANIFEST)
  {
    && IsText(files, DECLARATION) && Contains(files[DECLARATION].content, VERSION)
    && LinesOk(h, files, Lines(files[MANIFEST].content), true)
    && LinesOk(h, files, Lines(files[TAG_MANIFEST].content), false)
    && forall p :: p in files && HasPrefix(p, DATA) ==>
         !files[p].Symlink? && (files[p].Regular? ==> p in PathsOf(Lines(files[MANIFEST].content)))
  }

  datatype Report = Report(ok: bool, issues: seq<Issue>, payloadFiles: nat)

  /** VerifyBagIt */
  method VerifyBagIt(h: string -> string, files: Files) returns (r: Tx<Report, ()>)
    ensures r.Abort? <==> !(IsText(files, MANIFEST) && IsText(files, TAG_MANIFEST))
    ensures r.Abort? || r.Commit?
    ensures r.Commit? ==> (r.state.ok <==> BagOk(h, files)) && (r.state.ok <==> r.state.issues == [])
    ensures r.Commit? && r.state.ok ==> r.state.payloadFiles == |Lines(files[MANIFEST].content)|
  {
    hide Lines, Contains;
    var issues: seq<Issue> := [];
    if !IsText(files, DECLARATION) {
      issues := [MissingTag];
    } else if !Contains(files[DECLARATION].content, VERSION) {
      issues := [BagVersion];
    }
    if !IsText(files, MANIFEST) || !IsText(files, TAG_MANIFEST) {
      return Abort(Integrity);
    }
    var found, expected, checked := CheckLines(h, files, Lines(files[MANIFEST].content), true);
    var tags, _, _ := CheckLines(h, files, Lines(files[TAG_MANIFEST].content), false);
    var extra := WalkPayload(files, expected);
    hide LinesOk, PathsOf, HasPrefix;
    issues := issues + found + tags + extra;
    r := Commit(Report(issues == [], issues, checked), ());
  }

  /** The walk of the data directory. */
  method WalkPayload(files: Files, expected: set<string>) returns (issues: seq<Issue>)
    ensures issues == [] <==>
      forall p :: p in files && HasPrefix(p, DATA) ==> !files[p].Symlink? && (files[p].Regular? ==> p in expected)
  {
    issues := [];
    var rest := files.Keys;
    while rest != {}
      invariant rest <= files.Keys
      invariant issues == [] <==>
        forall p :: p in files.Keys - rest && HasPrefix(p, DATA) ==> !files[p].Symlink? && (files[p].Regular? ==> p in expected)
      decreases rest
    {
      var p :| p in rest;
      rest := rest - {p};
      if HasPrefix(p, DATA) {
        if files[p].Symlink? {
          issues := issues + [PayloadLink(p)];
        } else if files[p].Regular? && p !in expected {
          issues := issues + [UnexpectedPayload(p)];
        }
      }
    }
  }

  /** The text has the given words at position i. */
  ghost predicate WordsAt(s: string, words: string, i: int) {
    0 <= i && i + |words| <= |s| && s[i..i + |words|] == words
  }

  lemma {:induction false} ContainsMeans(s: string, words: string)
    ensures Contains(s, words) <==> exists i :: WordsAt(s, words, i)
    decreases |s|
  {
    if HasPrefix(s, words) {
      assert WordsAt(s, words, 0);
    }
    if s != "" {
      ContainsMeans(s[1..], words);
      if i :| WordsAt(s[1..], words, i) {
        assert s[1..][i..i + |words|] == s[i + 1..i + 1 + |words|];
        assert WordsAt(s, words, i + 1);
      }
      if i :| WordsAt(s, words, i) {
        if i == 0 {
          assert s[0..|words|] == s[..|words|];
        } else {
          assert s[1..][i - 1..i - 1 + |words|] == s[i..i + |words|];
          assert WordsAt(s[1..], words, i - 1);
        }
      }
    }
  }

  /** A sound bag declares the version that this library writes, wherever in its declaration. */
  lemma SoundBagIsDeclared(h: string -> string, files: Files)
    requires IsText(files, MANIFEST) && IsText(files, TAG_MANIFEST)
    ensures BagOk(h, files) ==>
      "bagit.txt" in files && files["bagit.txt"].Regular? && exists i :: WordsAt(files["bagit.txt"].content, "BagIt-Version: 1.0", i)
  {
    hide LinesOk, Lines, PathsOf, HasPrefix, Contains, WordsAt;
    if IsText(files, "bagit.txt") {
      ContainsMeans(files["bagit.txt"].content, "BagIt-Version: 1.0");
    }
  }

  /** A line ends at a line feed, with or without a carriage return before it, or at the end of
      the text; an empty end is no line. */
  lemma LineEndings(a: string, rest: string)
    requires '\n' !in a
    ensures Lines("") == []
    ensures Lines(a + "\r\n" + rest) == [a] + Lines(rest)
    ensures a == "" || a[|a| - 1] != '\r' ==> Lines(a + "\n" + rest) == [a] + Lines(rest)
    ensures a != "" && a[|a| - 1] != '\r' ==> Lines(a) == [a]
  {
    var b := a + "\r";
    assert b[..|a|] == a;
    LineCut(b, rest);
    LineCut(a, rest);
    assert b + ['\n'] + rest == a + "\r\n" + rest;
    assert a + ['\n'] + rest == a + "\n" + rest;
    SplitPlain(a, '\n');
    hide Split;
    assert DropReturn(b) == a;
    assert a != "" ==> Lines(a) == [DropReturn(a)];
  }

  lemma LineCut(a: string, rest: string)
    requires '\n' !in a
    ensures Lines(a + ['\n'] + rest) == [DropReturn(a)] + Lines(rest)
  {
    SplitPrefix(a, rest, '\n');
    hide Split, DropReturns;
    var tail := Split(rest, '\n');
    var parts := [a] + tail;
    assert parts[|parts| - 1] == tail[|tail| - 1];
    assert parts[..|parts| - 1] == [a] + tail[..|tail| - 1];
    FirstDropped(a, tail);
    FirstDropped(a, tail[..|tail| - 1]);
  }

  lemma FirstDropped(a: string, lines: seq<string>)
    ensures DropReturns([a] + lines) == [DropReturn(a)] + DropReturns(lines)
  {
    hide DropReturn;
  }

  // ---- What a sound bag holds ----

  /** The map a manifest stands for. */
  function ManifestMap(lines: seq<string>): map<string, string> {
    if lines == [] then map[]
    else ManifestMap(lines[..|lines| - 1])[PathOf(lines[|lines| - 1]) := DigestOf(lines[|lines| - 1])]
  }

  lemma {:induction false} ManifestMapAt(lines: seq<string>)
    requires forall i, j :: 0 <= i < j < |lines| ==> PathOf(lines[i]) != PathOf(lines[j])
    ensures ManifestMap(lines).Keys == PathsOf(lines)
    ensures forall i :: 0 <= i < |lines| ==> PathOf(lines[i]) in ManifestMap(lines) && ManifestMap(lines)[PathOf(lines[i])] == DigestOf(lines[i])
    decreases |lines|
  {
    hide PathOf, DigestOf;
    if lines != [] {
      var before, last := lines[..|lines| - 1], lines[|lines| - 1];
      ManifestMapAt(before);
      assert lines == before + [last];
      assert forall l :: l in lines <==> l in before || l == last;
      assert PathsOf(lines) == PathsOf(before) + {PathOf(last)};
      forall i | 0 <= i < |lines|
        ensures PathOf(lines[i]) in ManifestMap(lines) && ManifestMap(lines)[PathOf(lines[i])] == DigestOf(lines[i])
      {
        if i < |before| {
          assert lines[i] == before[i];
        }
      }
    }
  }

  /** A bag reported sound has exactly the payload files of its manifest, each with its digest. */
  lemma SoundBagMatchesManifest(h: string -> string, files: Files)
    requires IsText(files, MANIFEST) && IsText(files, TAG_MANIFEST) && BagOk(h, files)
    ensures var m := ManifestMap(Lines(files[MANIFEST].content));
            && (forall p :: p in m <==> IsText(files, p) && HasPrefix(p, DATA))
            && (forall p :: p in m ==> h(files[p].content) == m[p])
  {
    hide Lines, PathOf, DigestOf, Contains, HasPrefix;
    var lines := Lines(files[MANIFEST].content);
    forall i, j | 0 <= i < j < |lines|
      ensures PathOf(lines[i]) != PathOf(lines[j])
    {
      assert LineOk(h, files, lines, j, true);
    }
    ManifestMapAt(lines);
    forall p | p in PathsOf(lines)
      ensures IsText(files, p) && HasPrefix(p, DATA) && h(files[p].content) == ManifestMap(lines)[p]
    {
      var l :| l in lines && PathOf(l) == p;
      var i :| 0 <= i < |lines| && lines[i] == l;
      assert LineOk(h, files, lines, i, true);
      SafePayloadHasPrefix(l);
    }
  }

  lemma SafePayloadHasPrefix(line: string)
    requires WellFormedLine(line, true)
    ensures HasPrefix(PathOf(line), DATA)
  {
    hide Split, Clean;
  }

  // ---- The round trip ----

  ghost predicate HexHash(h: string -> string) {
    forall s :: |h(s)| == 64 && AllHex(h(s))
  }

  predicate IsDigest(d: string) {
    |d| == 64 && AllHex(d)
  }

  /** A payload map as ExportBagIt builds it: paths it names, with the digests on record. */
  ghost predicate ExportedPayload(payload: map<string, string>) {
    forall p :: p in payload ==> IsDigest(payload[p]) && exists id, name :: p == PayloadPath(id, name)
  }

  function Digests(h: string -> string, contents: map<string, string>): map<string, string> {
    map p | p in contents :: h(contents[p])
  }

  lemma PrintedLineFits(digest: string, path: string)
    requires IsDigest(digest) && path != "" && forall i :: 0 <= i < |path| ==> !IsControl(path[i])
    ensures FitsLine(LineOf(digest, path))
  {
    var line := LineOf(digest, path);
    assert IsControl('\n') && IsControl('\r');
    forall i | 0 <= i < |line|
      ensures line[i] != '\n'
    {
      if i < 64 {
        assert line[i] == digest[i];
      } else if i >= 66 {
        assert line[i] == path[i - 66];
      }
    }
    assert line[|line| - 1] == path[|path| - 1];
  }

  lemma ExportedPathFits(digest: string, path: string)
    requires IsDigest(digest) && exists id, name :: path == PayloadPath(id, name)
    ensures FitsLine(LineOf(digest, path)) && SafeBagPath(path, true) && WithinBag(path)
  {
    var id, name :| path == PayloadPath(id, name);
    PayloadPathIsSafe(id, name);
    hide PayloadPath, IsControl, Clean;
    PrintedLineFits(digest, path);
  }

  /** Writing the manifest of an exported payload and reading it back gives the same map. */
  lemma ManifestRoundTrip(payload: map<string, string>, keys: seq<string>)
    requires ExportedPayload(payload)
    requires Sorted(StringLess, keys) && Elements(keys) == payload.Keys && forall k :: k in keys ==> k in payload
    ensures var lines := Lines(Printed(keys, payload));
            && |lines| == |keys|
            && (forall i :: 0 <= i < |lines| ==> lines[i] == LineOf(payload[keys[i]], keys[i]))
            && ManifestMap(lines) == payload
  {
    hide Lines, Printed, Split, Clean, FitsLine, PayloadPath, StringLess, ManifestMap, ExportedPayload, LineOf, Elements, IsDigest;
    forall k | k in keys
      ensures FitsLine(LineOf(payload[k], k))
    {
      ExportedPathOf(payload, k);
      ExportedPathFits(payload[k], k);
    }
    LinesOfPrinted(keys, payload);
    var lines := PrintedLines(keys, payload);
    forall i | 0 <= i < |lines|
      ensures PathOf(lines[i]) == keys[i] && DigestOf(lines[i]) == payload[keys[i]]
    {
      ExportedPathOf(payload, keys[i]);
      DigestIsHex(payload[keys[i]]);
      ParsePrinted(payload[keys[i]], keys[i]);
    }
    StringLessIsStrictTotal();
    MapOfLines(lines, keys, payload);
  }

  lemma ExportedPathOf(payload: map<string, string>, p: string)
    requires ExportedPayload(payload) && p in payload
    ensures IsDigest(payload[p]) && exists id, name :: p == PayloadPath(id, name)
  {
  }

  lemma DigestIsHex(d: string)
    requires IsDigest(d)
    ensures |d| == 64 && AllHex(d)
  {
  }

  lemma MapOfLines(lines: seq<string>, keys: seq<string>, m: map<string, string>)
    requires |lines| == |keys| && Elements(keys) == m.Keys && forall i, j :: 0 <= i < j < |keys| ==> keys[i] != keys[j]
    requires forall i :: 0 <= i < |lines| ==> keys[i] in m && PathOf(lines[i]) == keys[i] && DigestOf(lines[i]) == m[keys[i]]
    ensures ManifestMap(lines) == m
  {
    hide PathOf, DigestOf, ManifestMap;
    ManifestMapAt(lines);
    PathsByIndex(lines);
    KeysByIndex(keys);
    forall p | p in m
      ensures p in ManifestMap(lines) && ManifestMap(lines)[p] == m[p]
    {
      assert p in Elements(keys);
      var i :| 0 <= i < |keys| && keys[i] == p;
      assert PathOf(lines[i]) == p;
    }
  }

  lemma KeysByIndex(keys: seq<string>)
    ensures Elements(keys) == set j | 0 <= j < |keys| :: keys[j]
  {
  }

  // ---- Exporting ----

  /** An included member: an object with its display name, the digest on record and the bytes
      of its blob file, if the file can be read. */
  datatype Item = Item(id: string, name: string, digest: string, content: Option<string>)

  function ItemPath(i: Item): string {
    PayloadPath(i.id, i.name)
  }

  /** Members have distinct identifiers minted by the library; recorded digests are digests. */
  ghost predicate DistinctItems(items: seq<Item>) {
    && (forall i :: 0 <= i < |items| ==> Minted(items[i].id) && IsDigest(items[i].digest))
    && (forall i, j :: 0 <= i < j < |items| ==> items[i].id != items[j].id)
  }

  /** The blob file is there and still hashes to the digest on record. */
  predicate Intact(h: string -> string, i: Item) {
    i.content.Some? && h(i.content.value) == i.digest
  }

  /** Whatever their display names, no two members are written to one path. */
  lemma ItemPathsDiffer(a: Item, b: Item)
    requires Minted(a.id) && Minted(b.id) && a.id != b.id
    ensures ItemPath(a) != ItemPath(b)
  {
    MintedIsKept(a.id);
    MintedIsKept(b.id);
    PayloadPathIsSafe(a.id, a.name);
    PayloadPathIsSafe(b.id, b.name);
    hide Sanitize, PayloadPath, Split, Clean;
    assert Split(ItemPath(a), '/')[1] == a.id && Split(ItemPath(b), '/')[1] == b.id;
  }

  const VERSION := "BagIt-Version: 1.0"
  const DECLARATION_TEXT := VERSION + "\nTag-File-Character-Encoding: UTF-8\n"
  const TAGS := [BAG_INFO, DECLARATION, MANIFEST]

  function TagContents(info: string, manifest: string): map<string, string> {
    map[BAG_INFO := info, DECLARATION := DECLARATION_TEXT, MANIFEST := manifest]
  }

  function AsFiles(contents: map<string, string>): Files {
    map p | p in contents :: Regular(contents[p])
  }

  /** The items at hand, by their paths. */
  ghost predicate Copied(items: seq<Item>, n: nat, payload: map<string, string>, contents: map<string, string>) {
    && n <= |items| && ExportedPayload(payload) && contents.Keys == payload.Keys
    && (forall i :: 0 <= i < n ==> items[i].content.Some? && ItemPath(items[i]) in payload
                                   && payload[ItemPath(items[i])] == items[i].digest
                                   && contents[ItemPath(items[i])] == items[i].content.value)
    && (forall p :: p in payload ==> exists i :: 0 <= i < n && p == ItemPath(items[i]))
  }

  /** The payload loop: it writes the recorded digest into the map and copies the bytes. A second
      file at a path would be refused. */
  method CopyPayload(items: seq<Item>) returns (ok: bool, payload: map<string, string>, contents: map<string, string>)
    requires DistinctItems(items)
    ensures ok <==> forall i :: 0 <= i < |items| ==> items[i].content.Some?
    ensures ok ==> Copied(items, |items|, payload, contents)
  {
    hide PayloadPath, Minted, IsDigest, ExportedPayload;
    ok, payload, contents := true, map[], map[];
    assert ExportedPayload(payload) by {
      NothingExported();
    }
    var n := 0;
    while n < |items|
      invariant Copied(items, n, payload, contents)
    {
      var item := items[n];
      if item.content.None? {
        return false, payload, contents;
      }
      var p := ItemPath(item);
      forall i | 0 <= i < n
        ensures ItemPath(items[i]) != p
      {
        ItemPathsDiffer(items[i], item);
      }
      OneMoreExported(payload, item);
      payload, contents := payload[p := item.digest], contents[p := item.content.value];
      n := n + 1;
    }
  }

  lemma NothingExported()
    ensures ExportedPayload(map[])
  {
  }

  lemma OneMoreExported(payload: map<string, string>, item: Item)
    requires ExportedPayload(payload) && IsDigest(item.digest)
    ensures ExportedPayload(payload[ItemPath(item) := item.digest])
  {
    hide PayloadPath, IsDigest;
    assert ItemPath(item) == PayloadPath(item.id, item.name);
  }

  /** Beside the payload a written package has its four tag files: the bag's information as given,
      and a tag manifest of the three others. */
  ghost predicate HasTags(files: Files, info: string) {
    && IsText(files, "tagmanifest-sha256.txt")
    && PathsOf(Lines(files["tagmanifest-sha256.txt"].content)) == {"bag-info.txt", "bagit.txt", "manifest-sha256.txt"}
    && "bag-info.txt" in files && files["bag-info.txt"] == Regular(info)
    && forall p :: p in files ==>
         HasPrefix(p, "data/") || p in {"bag-info.txt", "bagit.txt", "manifest-sha256.txt", "tagmanifest-sha256.txt"}
  }

  /** ExportBagIt from the payload loop to its self-check. It publishes a sound bag of exactly
      the members' bytes if every blob file is intact, and nothing otherwise. */
  method ExportBag(h: string -> string, items: seq<Item>, info: string) returns (r: Tx<Files, ()>)
    requires HexHash(h) && DistinctItems(items)
    ensures r.Commit? <==> forall i :: 0 <= i < |items| ==> Intact(h, items[i])
    ensures r.Commit? || r.Abort?
    ensures r.Commit? ==> IsText(r.state, MANIFEST) && IsText(r.state, TAG_MANIFEST) && BagOk(h, r.state)
    ensures r.Commit? ==> forall i :: 0 <= i < |items| ==>
      ItemPath(items[i]) in r.state && items[i].content.Some? && r.state[ItemPath(items[i])] == Regular(items[i].content.value)
    ensures r.Commit? ==> forall p :: p in r.state && HasPrefix(p, DATA) ==> exists i :: 0 <= i < |items| && p == ItemPath(items[i])
    ensures r.Commit? ==> HasTags(r.state, info)
  {
    hide HasTags, Lines, Printed, PayloadPath, HasPrefix, Clean, Split, Contains, LinesOk, ExportedPayload, DistinctItems, BagOk;
    var ok, payload, contents := CopyPayload(items);
    if !ok {
      return Abort(NotFound);
    }
    var manifest, keys := WriteManifest(payload);
    var tagText := Printed(TAGS, Digests(h, TagContents(info, manifest)));
    var files := AsFiles(contents) + AsFiles(TagContents(info, manifest)) + map[TAG_MANIFEST := Regular(tagText)];
    SoundIfFaithful(h, payload, contents, keys, info, manifest, tagText, files);
    FaithfulIfIntact(h, items, payload, contents);
    var report := VerifyBagIt(h, files);
    if report.Abort? || !report.state.ok {
      return Abort(Integrity);
    }
    r := Commit(files, ());
  }

  /** The bytes copied to each path have the digest on record. */
  ghost predicate Faithful(h: string -> string, payload: map<string, string>, contents: map<string, string>) {
    forall p :: p in payload ==> p in contents && h(contents[p]) == payload[p]
  }

  lemma FaithfulIfIntact(h: string -> string, items: seq<Item>, payload: map<string, string>, contents: map<string, string>)
    requires Copied(items, |items|, payload, contents)
    ensures Faithful(h, payload, contents) <==> forall i :: 0 <= i < |items| ==> Intact(h, items[i])
  {
    hide PayloadPath, ExportedPayload;
    if Faithful(h, payload, contents) {
      forall i | 0 <= i < |items|
        ensures Intact(h, items[i])
      {
        assert ItemPath(items[i]) in payload;
      }
    }
    if forall i :: 0 <= i < |items| ==> Intact(h, items[i]) {
      forall p | p in payload
        ensures p in contents && h(contents[p]) == payload[p]
      {
        var i :| 0 <= i < |items| && p == ItemPath(items[i]);
        assert Intact(h, items[i]);
      }
    }
  }

  /** The member is a committed object of the case, with the bytes its blob file has. */
  ghost predicate FromStore(s: Cas.System, i: Item) {
    var x := Id(i.id);
    && x in s.cat.details && s.cat.details[x].ObjectRow? && i.digest == s.cat.details[x].digest
    && i.content == if i.digest in s.blobs then Some(s.blobs[i.digest]) else None
  }

  /** In every run of every writer the objects of the case are intact, so their export is never
      refused. */
  lemma StoredItemsAreIntact(h: string -> string, who: Actor, a: Id, steps: seq<Cas.Step>, items: seq<Item>)
    requires forall i :: 0 <= i < |items| ==> FromStore(Cas.Run(h, Cas.NewSystem(who, a), steps), items[i])
    ensures forall i :: 0 <= i < |items| ==> Intact(h, items[i])
  {
    forall i | 0 <= i < |items|
      ensures Intact(h, items[i])
    {
      assert FromStore(Cas.Run(h, Cas.NewSystem(who, a), steps), items[i]);
      Cas.CommittedObjectsAreStored(h, who, a, steps, Id(items[i].id));
    }
  }

  lemma PayloadIsNotATag(payload: map<string, string>, p: string)
    requires ExportedPayload(payload) && p in payload
    ensures HasPrefix(p, DATA) && p != BAG_INFO && p != DECLARATION && p != MANIFEST && p != TAG_MANIFEST
  {
    hide PayloadPath, HasPrefix, SafeBagPath, WithinBag, Split, IsControl, IsDigest;
    var id, name :| p == PayloadPath(id, name);
    PayloadPathIsSafe(id, name);
    SafeHasPrefix(p);
    DataStartsWithD(p);
    TagsStartOtherwise();
  }

  lemma SafeHasPrefix(p: string)
    requires SafeBagPath(p, true)
    ensures HasPrefix(p, DATA)
  {
    hide Clean;
  }

  lemma DataStartsWithD(p: string)
    requires HasPrefix(p, DATA)
    ensures p != "" && p[0] == 'd'
  {
    assert p[..5][0] == DATA[0];
  }

  lemma TagsStartOtherwise()
    ensures BAG_INFO[0] != 'd' && DECLARATION[0] != 'd' && MANIFEST[0] != 'd' && TAG_MANIFEST[0] != 'd'
  {
  }

  lemma TagIsNoPayload(p: string)
    requires p == BAG_INFO || p == DECLARATION || p == MANIFEST || p == TAG_MANIFEST
    ensures !HasPrefix(p, DATA)
  {
    TagsStartOtherwise();
    if HasPrefix(p, DATA) {
      DataStartsWithD(p);
      assert false;
    }
  }

  /** What the exporter wrote, file by file. */
  ghost predicate Written(contents: map<string, string>, tags: map<string, string>, tagText: string, files: Files) {
    && files.Keys == contents.Keys + tags.Keys + {TAG_MANIFEST}
    && (forall p :: p in contents ==> files[p] == Regular(contents[p]))
    && (forall p :: p in tags ==> files[p] == Regular(tags[p]))
    && files[TAG_MANIFEST] == Regular(tagText)
  }

  /** The self-check passes exactly when the copied bytes have the digests on record. */
  lemma SoundIfFaithful(h: string -> string, payload: map<string, string>, contents: map<string, string>, keys: seq<string>,
                        info: string, manifest: string, tagText: string, files: Files)
    requires HexHash(h) && ExportedPayload(payload) && contents.Keys == payload.Keys
    requires Sorted(StringLess, keys) && Elements(keys) == payload.Keys && (forall k :: k in keys ==> k in payload)
    requires manifest == Printed(keys, payload)
    requires tagText == Printed(TAGS, Digests(h, TagContents(info, manifest)))
    requires files == AsFiles(contents) + AsFiles(TagContents(info, manifest)) + map[TAG_MANIFEST := Regular(tagText)]
    ensures IsText(files, MANIFEST) && IsText(files, TAG_MANIFEST)
    ensures BagOk(h, files) <==> Faithful(h, payload, contents)
    ensures forall p :: p in contents ==> p in files && files[p] == Regular(contents[p])
    ensures forall p :: p in files && HasPrefix(p, DATA) ==> p in contents
    ensures HasTags(files, info)
  {
    hide Lines, Printed, HasPrefix, LinesOk, ExportedPayload, PathsOf, StringLess, Contains, AsFiles, Digests, Sorted, Elements, Faithful;
    FilesAreWritten(payload, contents, info, manifest, tagText, files);
    var tags := TagContents(info, manifest);
    PayloadLinesOk(h, payload, contents, keys, files);
    TagLinesOk(h, tags, files);
    DeclarationIsVersioned();
    PayloadOnly(contents, tags, tagText, files);
    WrittenIsSound(h, contents, tags, tagText, files);
    TagsAreThere(payload, contents, tags, info, tagText, files);
  }

  lemma TagsAreThere(payload: map<string, string>, contents: map<string, string>, tags: map<string, string>, info: string, tagText: string,
                     files: Files)
    requires Written(contents, tags, tagText, files) && tags.Keys == {BAG_INFO, DECLARATION, MANIFEST} && tags[BAG_INFO] == info
    requires PathsOf(Lines(tagText)) == {"bag-info.txt", "bagit.txt", "manifest-sha256.txt"}
    requires ExportedPayload(payload) && contents.Keys == payload.Keys
    ensures HasTags(files, info)
  {
    hide Lines, PathsOf, HasPrefix, ExportedPayload;
    forall p | p in contents
      ensures HasPrefix(p, DATA)
    {
      PayloadIsNotATag(payload, p);
    }
  }

  lemma PayloadOnly(contents: map<string, string>, tags: map<string, string>, tagText: string, files: Files)
    requires Written(contents, tags, tagText, files) && tags.Keys == {BAG_INFO, DECLARATION, MANIFEST}
    ensures forall p :: p in files && HasPrefix(p, DATA) ==> p in contents
  {
    hide HasPrefix;
    forall p | p in files && HasPrefix(p, DATA)
      ensures p in contents
    {
      if p !in contents {
        TagIsNoPayload(p);
      }
    }
  }

  lemma WrittenIsSound(h: string -> string, contents: map<string, string>, tags: map<string, string>, tagText: string, files: Files)
    requires Written(contents, tags, tagText, files) && tags.Keys == {BAG_INFO, DECLARATION, MANIFEST}
    requires Contains(tags[DECLARATION], VERSION)
    requires PathsOf(Lines(tags[MANIFEST])) == contents.Keys && LinesOk(h, files, Lines(tagText), false)
    requires forall p :: p in files && HasPrefix(p, DATA) ==> p in contents
    ensures IsText(files, MANIFEST) && IsText(files, TAG_MANIFEST)
    ensures BagOk(h, files) <==> LinesOk(h, files, Lines(tags[MANIFEST]), true)
  {
    hide Lines, LinesOk, PathsOf, Contains, HasPrefix;
  }

  lemma DeclarationIsVersioned()
    ensures Contains(DECLARATION_TEXT, VERSION)
  {
    assert DECLARATION_TEXT[..|VERSION|] == VERSION;
  }

  lemma FilesAreWritten(payload: map<string, string>, contents: map<string, string>, info: string, manifest: string, tagText: string,
                        files: Files)
    requires ExportedPayload(payload) && contents.Keys == payload.Keys
    requires files == AsFiles(contents) + AsFiles(TagContents(info, manifest)) + map[TAG_MANIFEST := Regular(tagText)]
    ensures Written(contents, TagContents(info, manifest), tagText, files)
  {
    hide ExportedPayload, AsFiles;
    forall p | p in contents
      ensures p != BAG_INFO && p != DECLARATION && p != MANIFEST && p != TAG_MANIFEST
    {
      PayloadIsNotATag(payload, p);
    }
    TagsDiffer();
    MergedFiles(contents, TagContents(info, manifest), TAG_MANIFEST, tagText, files);
  }

  lemma MergedFiles(contents: map<string, string>, tags: map<string, string>, last: string, tagText: string, files: Files)
    requires last !in tags && last !in contents && forall p :: p in contents ==> p !in tags
    requires files == AsFiles(contents) + AsFiles(tags) + map[last := Regular(tagText)]
    ensures files.Keys == contents.Keys + tags.Keys + {last} && files[last] == Regular(tagText)
    ensures forall p :: p in contents ==> files[p] == Regular(contents[p])
    ensures forall p :: p in tags ==> files[p] == Regular(tags[p])
  {
  }

  lemma TagsDiffer()
    ensures TAG_MANIFEST != BAG_INFO && TAG_MANIFEST != DECLARATION && TAG_MANIFEST != MANIFEST
    ensures BAG_INFO != DECLARATION && BAG_INFO != MANIFEST && DECLARATION != MANIFEST
  {
    assert |TAG_MANIFEST| == 22 && |BAG_INFO| == 12 && |DECLARATION| == 9 && |MANIFEST| == 19;
  }

  lemma PayloadLinesOk(h: string -> string, payload: map<string, string>, contents: map<string, string>, keys: seq<string>, files: Files)
    requires ExportedPayload(payload) && contents.Keys == payload.Keys
    requires Sorted(StringLess, keys) && Elements(keys) == payload.Keys && (forall k :: k in keys ==> k in payload)
    requires forall p :: p in contents ==> p in files && files[p] == Regular(contents[p])
    ensures LinesOk(h, files, Lines(Printed(keys, payload)), true) <==> Faithful(h, payload, contents)
    ensures PathsOf(Lines(Printed(keys, payload))) == payload.Keys
  {
    hide Lines, Printed, StringLess, PathOf, DigestOf, LineOf, WellFormedLine, ExportedPayload, ManifestMap, PayloadPath, IsDigest;
    ManifestRoundTrip(payload, keys);
    StringLessIsStrictTotal();
    var lines := Lines(Printed(keys, payload));
    forall i | 0 <= i < |lines|
      ensures WellFormedLine(lines[i], true) && PathOf(lines[i]) == keys[i] && DigestOf(lines[i]) == payload[keys[i]]
    {
      ExportedPathOf(payload, keys[i]);
      ExportedLine(payload[keys[i]], keys[i]);
    }
    PathsByIndex(lines);
    KeysByIndex(keys);
    LinesFaithful(h, payload, contents, keys, files, lines);
  }

  lemma LinesFaithful(h: string -> string, payload: map<string, string>, contents: map<string, string>, keys: seq<string>, files: Files,
                      lines: seq<string>)
    requires contents.Keys == payload.Keys && |lines| == |keys|
    requires Elements(keys) == payload.Keys && forall i, j :: 0 <= i < j < |keys| ==> keys[i] != keys[j]
    requires forall i :: 0 <= i < |keys| ==> keys[i] in payload
    requires forall p :: p in contents ==> p in files && files[p] == Regular(contents[p])
    requires forall i :: 0 <= i < |lines| ==>
      WellFormedLine(lines[i], true) && PathOf(lines[i]) == keys[i] && DigestOf(lines[i]) == payload[keys[i]]
    ensures LinesOk(h, files, lines, true) <==> Faithful(h, payload, contents)
  {
    hide WellFormedLine, PathOf, DigestOf;
    if LinesOk(h, files, lines, true) {
      forall p | p in payload
        ensures p in contents && h(contents[p]) == payload[p]
      {
        assert p in Elements(keys);
        var i :| 0 <= i < |keys| && keys[i] == p;
        assert LineOk(h, files, lines, i, true);
      }
    }
  }

  lemma ExportedLine(digest: string, path: string)
    requires IsDigest(digest) && exists id, name :: path == PayloadPath(id, name)
    ensures var line := LineOf(digest, path); WellFormedLine(line, true) && PathOf(line) == path && DigestOf(line) == digest
  {
    hide PayloadPath, Clean, Cut, FitsLine, SafeBagPath;
    ExportedPathFits(digest, path);
    ParsePrinted(digest, path);
  }

  lemma TagLine(digest: string, tag: string)
    requires IsDigest(digest) && tag in TAGS
    ensures var line := LineOf(digest, tag);
            WellFormedLine(line, false) && PathOf(line) == tag && DigestOf(line) == digest && FitsLine(line)
  {
    hide Cut, FitsLine, SafeBagPath, WithinBag, IsControl;
    ParsePrinted(digest, tag);
    TagIsPlain(tag);
    PrintedLineFits(digest, tag);
  }

  lemma TagIsPlain(tag: string)
    requires tag in TAGS
    ensures SafeBagPath(tag, false) && WithinBag(tag) && tag != "" && forall i :: 0 <= i < |tag| ==> !IsControl(tag[i])
  {
    hide HasPrefix, Clean, Split;
    TagIsNoPayload(tag);
    TagsDiffer();
    TagCharacters(tag);
    PlainNameIsClean(tag);
    assert !HasPrefix(tag, "../") by {
      NoDotDot(tag);
    }
  }

  lemma NoDotDot(p: string)
    requires p != "" && p[0] != '.'
    ensures !HasPrefix(p, "../")
  {
    assert "../"[0] == '.';
  }

  lemma TagCharacters(tag: string)
    requires tag in TAGS
    ensures tag != "" && tag[0] != '.' && forall i :: 0 <= i < |tag| ==> '-' <= tag[i] <= 'z' && tag[i] != '/' && tag[i] != '\\'
  {
  }

  lemma PlainNameIsClean(p: string)
    requires p != "" && p[0] != '.' && '/' !in p
    ensures Clean(p) == p
  {
    SplitPlain(p, '/');
    PlainParts([p], []);
    hide Split;
    assert [] + [p] == [p];
  }

  lemma TagLinesOk(h: string -> string, tags: map<string, string>, files: Files)
    requires HexHash(h) && tags.Keys == {BAG_INFO, DECLARATION, MANIFEST}
    requires forall p :: p in tags ==> p in files && files[p] == Regular(tags[p])
    ensures LinesOk(h, files, Lines(Printed(TAGS, Digests(h, tags))), false)
    ensures PathsOf(Lines(Printed(TAGS, Digests(h, tags)))) == {"bag-info.txt", "bagit.txt", "manifest-sha256.txt"}
  {
    hide Lines, Printed, PathOf, DigestOf, LineOf, WellFormedLine, FitsLine;
    var digests := Digests(h, tags);
    forall k | k in TAGS
      ensures FitsLine(LineOf(digests[k], k))
    {
      TagLine(h(tags[k]), k);
    }
    LinesOfPrinted(TAGS, digests);
    TagsDiffer();
    var lines := PrintedLines(TAGS, digests);
    forall i | 0 <= i < |lines|
      ensures WellFormedLine(lines[i], false) && PathOf(lines[i]) == TAGS[i] && DigestOf(lines[i]) == h(tags[TAGS[i]])
    {
      TagLine(h(tags[TAGS[i]]), TAGS[i]);
    }
    assert PathsOf(lines) == {PathOf(lines[0]), PathOf(lines[1]), PathOf(lines[2])};
  }
}
