/** File names that packages and projections build from identifiers and display names. */
module Paths {
  import opened Order

  // ---- Splitting ----

  /** strings.Split for a one-character separator. */
  function Split(s: string, sep: char): (parts: seq<string>)
    ensures parts != [] && forall p :: p in parts ==> sep !in p
  {
    if s == "" then [""]
    else
      var rest := Split(s[1..], sep);
      if s[0] == sep then [""] + rest
      else
        assert forall p :: p in rest[1..] ==> p in rest;
        assert rest[0] in rest;
        [[s[0]] + rest[0]] + rest[1..]
  }

  function Join(parts: seq<string>, sep: char): string {
    if parts == [] then "" else if |parts| == 1 then parts[0] else parts[0] + [sep] + Join(parts[1..], sep)
  }

  lemma SplitStep(s: string, sep: char)
    requires s != ""
    ensures var rest := Split(s[1..], sep);
            Split(s, sep) == if s[0] == sep then [""] + rest else [[s[0]] + rest[0]] + rest[1..]
  {
  }

  /** Text that starts with a piece and a separator splits off that piece. */
  lemma {:induction false} SplitPrefix(x: string, rest: string, sep: char)
    requires sep !in x
    ensures Split(x + [sep] + rest, sep) == [x] + Split(rest, sep)
    decreases |x|
  {
    var s := x + [sep] + rest;
    if x == "" {
      assert s[1..] == rest;
    } else {
      assert s[1..] == x[1..] + [sep] + rest;
      assert x[0] in x;
      SplitPrefix(x[1..], rest, sep);
      assert [x[0]] + x[1..] == x;
    }
  }

  lemma {:induction false} SplitPlain(x: string, sep: char)
    requires sep !in x
    ensures Split(x, sep) == [x]
    decreases |x|
  {
    if x != "" {
      assert x[0] in x;
      SplitPlain(x[1..], sep);
      assert [x[0]] + x[1..] == x;
    }
  }

  lemma {:induction false} SplitJoin(parts: seq<string>, sep: char)
    requires parts != [] && forall i :: 0 <= i < |parts| ==> sep !in parts[i]
    ensures Split(Join(parts, sep), sep) == parts
    decreases |parts|
  {
    if |parts| == 1 {
      SplitPlain(parts[0], sep);
    } else {
      SplitJoin(parts[1..], sep);
      SplitPrefix(parts[0], Join(parts[1..], sep), sep);
      assert parts == [parts[0]] + parts[1..];
    }
  }

  // ---- sanitizeComponent ----

  /** unicode.IsSpace */
  predicate IsSpace(ch: char) {
    var n := ch as int;
    9 <= n <= 13 || n == 32 || n == 0x85 || n == 0xA0 || n == 0x1680 || 0x2000 <= n <= 0x200A || n == 0x2028 || n == 0x2029
    || n == 0x202F || n == 0x205F || n == 0x3000
  }

  /** strings.TrimSpace leaves nothing. */
  predicate Blank(s: string) {
    forall i :: 0 <= i < |s| ==> IsSpace(s[i])
  }

  /** unicode.IsControl, and everything below a space. */
  predicate IsControl(ch: char) {
    var n := ch as int;
    n < 32 || 127 <= n <= 159
  }

  predicate Forbidden(ch: char) {
    IsControl(ch) || ch in {'<', '>', ':', '\"', '/', '\\', '|', '?', '*'}
  }

  predicate SpaceOrDot(ch: char) {
    ch == ' ' || ch == '.'
  }

  function TrimLeft(s: string, drop: char -> bool): (r: string)
    ensures r == "" || !drop(r[0])
    ensures forall i :: 0 <= i < |r| ==> r[i] in s
  {
    if s == "" || !drop(s[0]) then s else TrimLeft(s[1..], drop)
  }

  function TrimRight(s: string, drop: char -> bool): (r: string)
    ensures r == "" || !drop(r[|r| - 1])
    ensures r <= s
  {
    if s == "" || !drop(s[|s| - 1]) then s else TrimRight(s[..|s| - 1], drop)
  }

  function Trim(s: string, drop: char -> bool): (r: string)
    ensures r == "" || (!drop(r[0]) && !drop(r[|r| - 1]))
    ensures forall i :: 0 <= i < |r| ==> r[i] in s
  {
    var left := TrimLeft(s, drop);
    var r := TrimRight(left, drop);
    assert forall i :: 0 <= i < |r| ==> r[i] == left[i];
    r
  }

  function Replaced(s: string): (r: string)
    ensures |r| == |s| && forall i :: 0 <= i < |r| ==> !Forbidden(r[i])
    ensures forall i :: 0 <= i < |r| ==> r[i] == if Forbidden(s[i]) then '_' else s[i]
  {
    if s == "" then "" else [if Forbidden(s[0]) then '_' else s[0]] + Replaced(s[1..])
  }

  function Upper(ch: char): char {
    if 'a' <= ch <= 'z' then (ch as int - 32) as char else ch
  }

  function UpperAll(s: string): (r: string)
    ensures |r| == |s|
  {
    if s == "" then "" else [Upper(s[0])] + UpperAll(s[1..])
  }

  /** The name without its last dot and what follows; a component has no slash. */
  function Stem(s: string): (r: string)
    ensures r <= s
    ensures '.' !in s ==> r == s
  {
    if '.' !in s then s else if s[|s| - 1] == '.' then s[..|s| - 1] else Stem(s[..|s| - 1])
  }

  function Devices(): set<string> {
    {"CON", "PRN", "AUX", "NUL", "COM1", "COM2", "COM3", "COM4", "COM5", "COM6", "COM7", "COM8", "COM9",
     "LPT1", "LPT2", "LPT3", "LPT4", "LPT5", "LPT6", "LPT7", "LPT8", "LPT9"}
  }

  /** Forbidden characters replaced, then spaces and dots trimmed from both ends. */
  function Cleaned(s: string): (r: string)
    ensures forall i :: 0 <= i < |r| ==> !Forbidden(r[i])
    ensures r != "" ==> r[0] != ' ' && r[0] != '.'
  {
    var replaced := Replaced(Trim(s, IsSpace));
    var r := Trim(replaced, SpaceOrDot);
    assert forall i :: 0 <= i < |r| ==> exists j :: 0 <= j < |replaced| && replaced[j] == r[i];
    r
  }

  /** Windows device names get a prefix. */
  function FreeOfDevices(s: string): string {
    if UpperAll(Stem(s)) in Devices() then "_" + s else s
  }

  /** sanitizeComponent */
  function Sanitize(s: string): string {
    var clean := Cleaned(s);
    var free := FreeOfDevices(if clean == "" then "_" else clean);
    if |free| > 180 then free[..180] else free
  }

  /** Every character but the control characters and nine others. */
  predicate AllowedInNames(ch: char) {
    var n := ch as int;
    32 <= n && !(127 <= n <= 159)
    && ch != '<' && ch != '>' && ch != ':' && ch != '\"' && ch != '/' && ch != '\\' && ch != '|' && ch != '?' && ch != '*'
  }

  /** A single path component that is safe on any file system. */
  ghost predicate SafeComponent(r: string) {
    && r != "" && r != "." && r != ".." && r[0] != '.' && r[0] != ' ' && |r| <= 180
    && forall i :: 0 <= i < |r| ==> AllowedInNames(r[i])
  }

  /** Every sanitized name is a safe component, whatever the input. */
  lemma SanitizedIsSafe(s: string)
    ensures SafeComponent(Sanitize(s))
  {
    var clean := Cleaned(s);
    hide Forbidden, AllowedInNames, Cleaned, FreeOfDevices;
    UnderscoreIsAllowed();
    FreedStaysSafe(if clean == "" then "_" else clean);
    forall i | 0 <= i < |Sanitize(s)|
      ensures AllowedInNames(Sanitize(s)[i])
    {
      AllowedIsNotForbidden(Sanitize(s)[i]);
    }
  }

  lemma AllowedIsNotForbidden(ch: char)
    ensures AllowedInNames(ch) <==> !Forbidden(ch)
  {
  }

  lemma FreedStaysSafe(s: string)
    requires s != "" && s[0] != ' ' && s[0] != '.' && forall i :: 0 <= i < |s| ==> !Forbidden(s[i])
    ensures var r := FreeOfDevices(s);
            r != "" && r[0] != ' ' && r[0] != '.' && forall i :: 0 <= i < |r| ==> !Forbidden(r[i])
  {
    hide Forbidden, Devices, UpperAll, Stem;
    UnderscoreIsAllowed();
  }

  lemma UnderscoreIsAllowed()
    ensures !Forbidden('_')
  {
  }

  /** An identifier the library mints: lower-case letters, digits and an underscore. */
  ghost predicate Minted(id: string) {
    && 0 < |id| <= 180 && '_' in id
    && forall i :: 0 <= i < |id| ==> 'a' <= id[i] <= 'z' || '0' <= id[i] <= '9' || id[i] == '_'
  }

  /** Sanitizing leaves minted identifiers alone, so distinct ones stay distinct. */
  lemma MintedIsKept(id: string)
    requires Minted(id)
    ensures Sanitize(id) == id
  {
    hide Forbidden, IsSpace, Cleaned, FreeOfDevices, Replaced, Trim;
    forall i | 0 <= i < |id|
      ensures !Forbidden(id[i]) && !IsSpace(id[i]) && !SpaceOrDot(id[i])
    {
      MintedCharacter(id[i]);
    }
    NothingTrimmed(id, IsSpace);
    NothingReplaced(id);
    NothingTrimmed(id, SpaceOrDot);
    CleanedIsKept(id);
    NotADevice(id);
  }

  lemma MintedCharacter(ch: char)
    requires 'a' <= ch <= 'z' || '0' <= ch <= '9' || ch == '_'
    ensures !Forbidden(ch) && !IsSpace(ch) && !SpaceOrDot(ch) && ch != '/'
  {
  }

  lemma NothingTrimmed(s: string, drop: char -> bool)
    requires s != "" && !drop(s[0]) && !drop(s[|s| - 1])
    ensures Trim(s, drop) == s
  {
  }

  lemma {:induction false} NothingReplaced(s: string)
    requires forall i :: 0 <= i < |s| ==> !Forbidden(s[i])
    ensures Replaced(s) == s
  {
    var r := Replaced(s);
    assert forall i :: 0 <= i < |s| ==> r[i] == s[i];
  }

  lemma CleanedIsKept(s: string)
    requires Trim(s, IsSpace) == s && Replaced(s) == s && Trim(s, SpaceOrDot) == s
    ensures Cleaned(s) == s
  {
  }

  lemma NotADevice(id: string)
    requires Minted(id)
    ensures FreeOfDevices(id) == id
  {
    var i :| 0 <= i < |id| && id[i] == '_';
    UpperKeepsUnderscore(id, i);
    DevicesHaveNoUnderscore();
    hide Devices, UpperAll;
  }

  lemma {:induction false} UpperKeepsUnderscore(s: string, i: nat)
    requires i < |s| && s[i] == '_'
    ensures '_' in UpperAll(s)
  {
    if i > 0 {
      UpperKeepsUnderscore(s[1..], i - 1);
    }
  }

  lemma DevicesHaveNoUnderscore()
    ensures forall d :: d in Devices() ==> '_' !in d
  {
  }
}
