/** The canonical JSON printer (RFC 8259): objects with sorted keys, no white space, and one
    spelling per string. Two values print alike exactly when they are the same value, with
    objects taken as maps. */
module CanonicalJson {
  import opened Common
  import opened Order

  /** A decoded value; a number keeps its text. */
  datatype Json =
    | Null
    | Bool(b: bool)
    | Num(text: string)
    | Str(s: string)
    | Arr(items: seq<Json>)
    | Obj(members: map<string, Json>)

  predicate NumberChar(ch: char) {
    '0' <= ch <= '9' || ch == '-' || ch == '+' || ch == '.' || ch == 'e' || ch == 'E'
  }

  /** What every number of the grammar satisfies. */
  predicate NumberText(s: string) {
    s != "" && (s[0] == '-' || '0' <= s[0] <= '9') && forall i :: 0 <= i < |s| ==> NumberChar(s[i])
  }

  ghost predicate WellFormed(j: Json) {
    match j
    case Num(t) => NumberText(t)
    case Arr(items) => forall i :: 0 <= i < |items| ==> WellFormed(items[i])
    case Obj(members) => forall k :: k in members ==> WellFormed(members[k])
    case _ => true
  }

  // ---- Strings ----

  function HexDigit(n: nat): char
    requires n < 16
  {
    if n < 10 then ('0' as int + n) as char else ('a' as int + n - 10) as char
  }

  function Hex4(n: nat): (s: string)
    requires n < 65536
    ensures |s| == 4
  {
    var m := n / 16;
    var l := m / 16;
    [HexDigit(l / 16), HexDigit(l % 16), HexDigit(m % 16), HexDigit(n % 16)]
  }

  /** Characters with a two-character escape. */
  predicate Short(ch: char) {
    ch == '\"' || ch == '\\' || ch == 8 as char || ch == 12 as char || ch == '\n' || ch == '\r' || ch == '\t'
  }

  function ShortLetter(ch: char): char
    requires Short(ch)
  {
    if ch == '\n' then 'n' else if ch == '\r' then 'r' else if ch == '\t' then 't'
    else if ch == 8 as char then 'b' else if ch == 12 as char then 'f' else ch
  }

  /** Characters with a six-character escape; those of HTML only where html holds. */
  predicate Wide(ch: char, html: bool) {
    !Short(ch) && (ch < ' ' || ch as int == 0x2028 || ch as int == 0x2029 || (html && (ch == '<' || ch == '>' || ch == '&')))
  }

  function Unit(ch: char, html: bool): (s: string)
    ensures s != "" && s[0] != '\"'
  {
    if Short(ch) then ['\\', ShortLetter(ch)]
    else if Wide(ch, html) then ['\\', 'u'] + Hex4(ch as int)
    else [ch]
  }

  function Escaped(s: string, html: bool): string {
    if s == "" then "" else Unit(s[0], html) + Escaped(s[1..], html)
  }

  function Quoted(s: string, html: bool): string {
    "\"" + Escaped(s, html) + "\""
  }

  lemma HexDigitIsInjective(m: nat, n: nat)
    requires m < 16 && n < 16 && HexDigit(m) == HexDigit(n)
    ensures m == n
  {
  }

  lemma Hex4IsInjective(m: nat, n: nat)
    requires m < 65536 && n < 65536 && Hex4(m) == Hex4(n)
    ensures m == n
  {
    var i, j := m / 16, n / 16;
    var k, l := i / 16, j / 16;
    var s, t := Hex4(m), Hex4(n);
    hide HexDigit;
    assert s[0] == t[0] && s[1] == t[1] && s[2] == t[2] && s[3] == t[3];
    HexDigitIsInjective(k / 16, l / 16);
    HexDigitIsInjective(k % 16, l % 16);
    HexDigitIsInjective(i % 16, j % 16);
    HexDigitIsInjective(m % 16, n % 16);
  }

  /** One unit can be cut off the front of a text in only one way. */
  lemma UnitDecodes(a: char, b: char, html: bool, r: string, t: string)
    requires Unit(a, html) + r == Unit(b, html) + t
    ensures a == b && r == t
  {
    var u, v := Unit(a, html), Unit(b, html);
    var text := u + r;
    assert text == v + t;
    assert u[0] == text[0] == v[0];
    if |u| > 1 && |v| > 1 {
      assert u[1] == text[1] == v[1];
      if |u| == 6 && |v| == 6 {
        assert u[2..] == text[2..6] == v[2..];
        Hex4IsInjective(a as int, b as int);
      }
    }
    assert |u| == |v|;
    assert r == text[|u|..] && t == text[|v|..];
  }

  /** A quoted string ends at its own closing quote. */
  lemma {:induction false} EscapedDecodes(a: string, b: string, html: bool, r: string, t: string)
    requires Escaped(a, html) + "\"" + r == Escaped(b, html) + "\"" + t
    ensures a == b && r == t
    decreases |a|
  {
    hide Unit;
    if a == "" && b == "" {
      QuoteFirst(r, t);
    } else if a == "" {
      EscapedStep(b, html, t);
      EmptyStep(html, r);
    } else if b == "" {
      EscapedStep(a, html, r);
      EmptyStep(html, t);
    } else {
      EscapedStep(a, html, r);
      EscapedStep(b, html, t);
      UnitDecodes(a[0], b[0], html, Escaped(a[1..], html) + "\"" + r, Escaped(b[1..], html) + "\"" + t);
      EscapedDecodes(a[1..], b[1..], html, r, t);
      assert a == [a[0]] + a[1..] && b == [b[0]] + b[1..];
    }
  }

  lemma QuoteFirst(r: string, t: string)
    requires "" + "\"" + r == "" + "\"" + t
    ensures r == t
  {
    assert r == ("" + "\"" + r)[1..] && t == ("" + "\"" + t)[1..];
  }

  lemma EmptyStep(html: bool, r: string)
    ensures (Escaped("", html) + "\"" + r)[0] == '\"'
  {
  }

  lemma EscapedStep(a: string, html: bool, r: string)
    requires a != ""
    ensures Escaped(a, html) + "\"" + r == Unit(a[0], html) + (Escaped(a[1..], html) + "\"" + r)
    ensures (Escaped(a, html) + "\"" + r)[0] != '\"'
  {
    hide Unit;
    var text := Unit(a[0], html) + (Escaped(a[1..], html) + "\"" + r);
    assert Escaped(a, html) + "\"" + r == text;
    assert text[0] == Unit(a[0], html)[0];
  }

  lemma QuotedDecodes(a: string, b: string, html: bool, r: string, t: string)
    requires Quoted(a, html) + r == Quoted(b, html) + t
    ensures a == b && r == t
  {
    var text := Quoted(a, html) + r;
    assert text[1..] == Escaped(a, html) + "\"" + r && text[1..] == Escaped(b, html) + "\"" + t;
    EscapedDecodes(a, b, html, r, t);
  }

  // ---- Values ----

  /** The keys of an object in sorted order. */
  ghost function SortedKeys(keys: set<string>): (s: seq<string>)
    ensures Sorted(StringLess, s) && Elements(s) == keys
  {
    StringLessIsStrictTotal();
    assert exists s: seq<string> :: Sorted(StringLess, s) && Elements(s) == keys by {
      var s := SortedListingExists(StringLess, keys);
    }
    var s: seq<string> :| Sorted(StringLess, s) && Elements(s) == keys;
    s
  }

  /** The printed form. html tells whether < > and & are escaped: everything inside an object
      is printed by json.Marshal, which escapes them; only outside every object they stay. */
  ghost function Print(j: Json, html: bool): string
    decreases j, 1, 0
  {
    match j
    case Null => "null"
    case Bool(b) => if b then "true" else "false"
    case Num(t) => t
    case Str(s) => Quoted(s, html)
    case Arr(items) => "[" + PrintItems(j, html, 0)
    case Obj(members) => KeysAreThere(members); "{" + PrintMembers(j, SortedKeys(members.Keys), true)
  }

  lemma KeysAreThere(members: map<string, Json>)
    ensures forall k :: k in SortedKeys(members.Keys) ==> k in members
  {
    forall k | k in SortedKeys(members.Keys)
      ensures k in members
    {
      assert k in Elements(SortedKeys(members.Keys));
    }
  }

  /** The separator before an item. */
  function Comma(first: bool): string {
    if first then "" else ","
  }

  /** The items from position i on, with the closing bracket. */
  ghost function PrintItems(j: Json, html: bool, i: nat): string
    requires j.Arr? && i <= |j.items|
    decreases j, 0, |j.items| - i
  {
    if i == |j.items| then "]"
    else Comma(i == 0) + (Print(j.items[i], html) + PrintItems(j, html, i + 1))
  }

  /** The members under the given keys, with the closing brace. */
  ghost function PrintMembers(j: Json, keys: seq<string>, first: bool): string
    requires j.Obj? && forall k :: k in keys ==> k in j.members
    decreases j, 0, |keys|
  {
    if keys == [] then "}"
    else Comma(first) + (Quoted(keys[0], true) + (":" + (Print(j.members[keys[0]], true) + PrintMembers(j, keys[1..], false))))
  }

  /** Text that can follow a printed value. */
  predicate Follows(r: string) {
    r == "" || r[0] in {',', ']', '}'}
  }

  lemma {:induction false} NumberDecodes(a: string, b: string, r: string, t: string)
    requires (forall i :: 0 <= i < |a| ==> NumberChar(a[i])) && (forall i :: 0 <= i < |b| ==> NumberChar(b[i]))
    requires Follows(r) && Follows(t) && a + r == b + t
    ensures a == b && r == t
  {
    var text := a + r;
    if |a| < |b| {
      NumberEnds(a, r, b, t);
    } else if |b| < |a| {
      NumberEnds(b, t, a, r);
    }
    assert a == text[..|a|] && b == text[..|b|] && r == text[|a|..] && t == text[|b|..];
  }

  lemma NumberEnds(a: string, r: string, b: string, t: string)
    requires |a| < |b| && a + r == b + t && forall i :: 0 <= i < |b| ==> NumberChar(b[i])
    ensures !Follows(r)
  {
    assert (a + r)[|a|] == (b + t)[|a|] == b[|a|];
    assert r[0] == b[|a|] && NumberChar(b[|a|]);
  }

  /** The first character tells the kind of a value. */
  function First(j: Json): set<char> {
    match j
    case Null => {'n'}
    case Bool(b) => if b then {'t'} else {'f'}
    case Num(_) => {'-', '0', '1', '2', '3', '4', '5', '6', '7', '8', '9'}
    case Str(_) => {'\"'}
    case Arr(_) => {'['}
    case Obj(_) => {'{'}
  }

  lemma FirstCharacter(j: Json, html: bool)
    requires WellFormed(j)
    ensures Print(j, html) != "" && Print(j, html)[0] in First(j)
  {
    hide PrintItems, PrintMembers, Escaped, SortedKeys;
  }

  /** A printed value can be cut off the front of a text in only one way. */
  lemma {:induction false} PrintDecodes(j: Json, k: Json, html: bool, r: string, t: string)
    requires WellFormed(j) && WellFormed(k) && Follows(r) && Follows(t)
    requires Print(j, html) + r == Print(k, html) + t
    ensures j == k && r == t
    decreases j, 1, 0
  {
    SameKind(j, k, html, r, t);
    hide First;
    match j {
      case Null => SameText("null", r, t);
      case Bool(b) => SameText(if b then "true" else "false", r, t);
      case Num(a) => NumberDecodes(a, k.text, r, t);
      case Str(s) => QuotedDecodes(s, k.s, html, r, t);
      case Arr(_) =>
        DropFirst("[", PrintItems(j, html, 0), r, PrintItems(k, html, 0), t);
        ItemsDecode(j, k, html, 0, r, t);
      case Obj(members) =>
        KeysAreThere(members);
        KeysAreThere(k.members);
        var ks, ls := SortedKeys(members.Keys), SortedKeys(k.members.Keys);
        DropFirst("{", PrintMembers(j, ks, true), r, PrintMembers(k, ls, true), t);
        MembersDecode(j, k, ks, ls, true, r, t);
        SameMembers(members, k.members, ks);
    }
  }

  lemma SameText(s: string, r: string, t: string)
    requires s + r == s + t
    ensures r == t
  {
    assert r == (s + r)[|s|..] && t == (s + t)[|s|..];
  }

  lemma DropFirst(c: string, a: string, r: string, b: string, t: string)
    requires |c| == 1 && c + a + r == c + b + t
    ensures a + r == b + t
  {
    assert c + a + r == c + (a + r) && c + b + t == c + (b + t);
    SameText(c, a + r, b + t);
  }

  lemma SameKind(j: Json, k: Json, html: bool, r: string, t: string)
    requires WellFormed(j) && WellFormed(k) && Print(j, html) + r == Print(k, html) + t
    ensures match j
            case Null => k.Null?
            case Bool(b) => k == j
            case Num(_) => k.Num?
            case Str(_) => k.Str?
            case Arr(_) => k.Arr?
            case Obj(_) => k.Obj?
  {
    FirstCharacter(j, html);
    FirstCharacter(k, html);
    hide Print;
    assert (Print(j, html) + r)[0] == Print(j, html)[0] && (Print(k, html) + t)[0] == Print(k, html)[0];
  }

  lemma {:induction false} ItemsDecode(j: Json, k: Json, html: bool, i: nat, r: string, t: string)
    requires j.Arr? && k.Arr? && i <= |j.items| && i <= |k.items| && WellFormed(j) && WellFormed(k)
    requires PrintItems(j, html, i) + r == PrintItems(k, html, i) + t
    ensures j.items[i..] == k.items[i..] && r == t
    decreases j, 0, |j.items| - i
  {
    hide Print, First;
    if i == |j.items| && i == |k.items| {
      SameText("]", r, t);
    } else if i == |j.items| {
      ItemsContinue(k, html, i, t);
      BracketFirst(r);
    } else if i == |k.items| {
      ItemsContinue(j, html, i, r);
      BracketFirst(t);
    } else {
      var x, y := PrintItems(j, html, i + 1) + r, PrintItems(k, html, i + 1) + t;
      ItemsHead(j, k, html, i, r, t);
      ItemsFollow(j, html, i + 1, r);
      ItemsFollow(k, html, i + 1, t);
      PrintDecodes(j.items[i], k.items[i], html, x, y);
      ItemsDecode(j, k, html, i + 1, r, t);
      assert j.items[i..] == [j.items[i]] + j.items[i + 1..] && k.items[i..] == [k.items[i]] + k.items[i + 1..];
    }
  }

  lemma SameMembers(m: map<string, Json>, n: map<string, Json>, ks: seq<string>)
    requires Elements(ks) == m.Keys == n.Keys
    requires forall x :: x in ks ==> x in m && x in n && m[x] == n[x]
    ensures m == n
  {
    forall x | x in m
      ensures x in n && m[x] == n[x]
    {
      assert x in Elements(ks);
    }
  }

  lemma BracketFirst(r: string)
    ensures ("]" + r)[0] == ']'
  {
  }

  lemma Assoc(a: string, b: string, c: string)
    ensures a + b + c == a + (b + c)
  {
  }

  lemma ItemsStep(j: Json, html: bool, i: nat, r: string)
    requires j.Arr? && i < |j.items|
    ensures PrintItems(j, html, i) + r == Comma(i == 0) + (Print(j.items[i], html) + (PrintItems(j, html, i + 1) + r))
  {
    hide Print;
    var p, rest := Print(j.items[i], html), PrintItems(j, html, i + 1);
    assert PrintItems(j, html, i) == Comma(i == 0) + (p + rest);
    Assoc(Comma(i == 0), p + rest, r);
    Assoc(p, rest, r);
  }

  lemma ItemsContinue(j: Json, html: bool, i: nat, r: string)
    requires j.Arr? && i < |j.items| && WellFormed(j)
    ensures PrintItems(j, html, i) + r != "" && (PrintItems(j, html, i) + r)[0] != ']'
  {
    FirstCharacter(j.items[i], html);
    ItemsStep(j, html, i, r);
    hide Print, PrintItems;
    var p, rest := Print(j.items[i], html), PrintItems(j, html, i + 1) + r;
    assert (p + rest)[0] == p[0];
    assert i == 0 ==> Comma(true) + (p + rest) == p + rest;
    assert ']' !in First(j.items[i]);
  }

  lemma ItemsHead(j: Json, k: Json, html: bool, i: nat, r: string, t: string)
    requires j.Arr? && k.Arr? && i < |j.items| && i < |k.items|
    requires PrintItems(j, html, i) + r == PrintItems(k, html, i) + t
    ensures Print(j.items[i], html) + (PrintItems(j, html, i + 1) + r) == Print(k.items[i], html) + (PrintItems(k, html, i + 1) + t)
  {
    ItemsStep(j, html, i, r);
    ItemsStep(k, html, i, t);
    hide Print, PrintItems;
    SameText(Comma(i == 0), Print(j.items[i], html) + (PrintItems(j, html, i + 1) + r),
             Print(k.items[i], html) + (PrintItems(k, html, i + 1) + t));
  }

  lemma ItemsFollow(j: Json, html: bool, i: nat, r: string)
    requires j.Arr? && 0 < i <= |j.items|
    ensures Follows(PrintItems(j, html, i) + r)
  {
    hide Print;
    if i < |j.items| {
      assert (PrintItems(j, html, i) + r)[0] == ',';
    }
  }

  lemma MembersStep(j: Json, ks: seq<string>, first: bool, r: string)
    requires j.Obj? && ks != [] && forall x :: x in ks ==> x in j.members
    ensures var v := j.members[ks[0]];
            PrintMembers(j, ks, first) + r
            == Comma(first) + (Quoted(ks[0], true) + (":" + (Print(v, true) + (PrintMembers(j, ks[1..], false) + r))))
    ensures (PrintMembers(j, ks, first) + r)[0] == if first then '\"' else ','
  {
    hide Print, Quoted;
    var v := j.members[ks[0]];
    var a, b, c, d := Comma(first), Quoted(ks[0], true), Print(v, true), PrintMembers(j, ks[1..], false);
    assert PrintMembers(j, ks, first) == a + (b + (":" + (c + d)));
    Assoc(a, b + (":" + (c + d)), r);
    Assoc(b, ":" + (c + d), r);
    Assoc(":", c + d, r);
    Assoc(c, d, r);
    QuoteStarts(ks[0]);
    FirstOfJoin(first, b, ":" + (c + (d + r)));
  }

  lemma QuoteStarts(s: string)
    ensures Quoted(s, true) != "" && Quoted(s, true)[0] == '\"'
  {
    hide Escaped;
  }

  lemma FirstOfJoin(first: bool, b: string, rest: string)
    requires b != ""
    ensures (Comma(first) + (b + rest))[0] == if first then b[0] else ','
  {
    assert (b + rest)[0] == b[0];
  }

  lemma MembersFollow(j: Json, ks: seq<string>, r: string)
    requires j.Obj? && forall x :: x in ks ==> x in j.members
    ensures Follows(PrintMembers(j, ks, false) + r)
  {
    if ks != [] {
      MembersStep(j, ks, false, r);
    }
    hide Print;
  }

  lemma {:induction false} MembersDecode(j: Json, k: Json, ks: seq<string>, ls: seq<string>, first: bool, r: string, t: string)
    requires j.Obj? && k.Obj? && WellFormed(j) && WellFormed(k)
    requires (forall x :: x in ks ==> x in j.members) && (forall x :: x in ls ==> x in k.members)
    requires PrintMembers(j, ks, first) + r == PrintMembers(k, ls, first) + t
    ensures ks == ls && r == t && forall x :: x in ks ==> j.members[x] == k.members[x]
    decreases j, 0, |ks|
  {
    hide Print, Quoted, First, PrintMembers, Follows;
    if ks == [] && ls == [] {
      NoMembers(j, r);
      NoMembers(k, t);
      SameText("}", r, t);
    } else if ks == [] {
      NoMembers(j, r);
      MembersStep(k, ls, first, t);
    } else if ls == [] {
      NoMembers(k, t);
      MembersStep(j, ks, first, r);
    } else {
      var v, w := j.members[ks[0]], k.members[ls[0]];
      var d, e := PrintMembers(j, ks[1..], false) + r, PrintMembers(k, ls[1..], false) + t;
      MembersStep(j, ks, first, r);
      MembersStep(k, ls, first, t);
      SameText(Comma(first), Quoted(ks[0], true) + (":" + (Print(v, true) + d)), Quoted(ls[0], true) + (":" + (Print(w, true) + e)));
      QuotedDecodes(ks[0], ls[0], true, ":" + (Print(v, true) + d), ":" + (Print(w, true) + e));
      SameText(":", Print(v, true) + d, Print(w, true) + e);
      MembersFollow(j, ks[1..], r);
      MembersFollow(k, ls[1..], t);
      PrintDecodes(v, w, true, d, e);
      MembersDecode(j, k, ks[1..], ls[1..], false, r, t);
      assert ks == [ks[0]] + ks[1..] && ls == [ls[0]] + ls[1..];
    }
  }

  lemma NoMembers(j: Json, r: string)
    requires j.Obj?
    ensures forall first :: PrintMembers(j, [], first) == "}"
    ensures ("}" + r)[0] == '}'
  {
  }

  // ---- The canonical form ----

  ghost function Canonical(j: Json): string {
    Print(j, false)
  }

  /** Two values have one canonical form exactly when they are equal. */
  lemma CanonicalIsInjective(j: Json, k: Json)
    requires WellFormed(j) && WellFormed(k)
    ensures Canonical(j) == Canonical(k) <==> j == k
  {
    hide Print;
    if Canonical(j) == Canonical(k) {
      assert Print(j, false) + "" == Print(k, false) + "";
      PrintDecodes(j, k, false, "", "");
    }
  }

  // ---- The encoder ----

  lemma SortedKeysUnique(keys: seq<string>, s: set<string>)
    requires Sorted(StringLess, keys) && Elements(keys) == s
    ensures keys == SortedKeys(s)
  {
    StringLessIsStrictTotal();
    SortedUnique(StringLess, keys, SortedKeys(s));
  }

  /** canonicalJSON on a decoded value: whatever order a map gives its keys in, they are sorted
      before they are written. */
  method Encode(j: Json, html: bool) returns (text: string)
    ensures text == Print(j, html)
    decreases j, 1
  {
    match j {
      case Null => text := "null";
      case Bool(b) => text := if b then "true" else "false";
      case Num(t) => text := t;
      case Str(s) => text := Quoted(s, html);
      case Arr(items) =>
        text := EncodeItems(j, html);
      case Obj(members) =>
        text := EncodeMembers(j);
    }
  }

  method EncodeItems(j: Json, html: bool) returns (text: string)
    requires j.Arr?
    ensures text == Print(j, html)
    decreases j, 0
  {
    hide Print, PrintItems;
    text := "[";
    assert Print(j, html) == "[" + PrintItems(j, html, 0) by {
      ArrayPrint(j, html);
    }
    var i := 0;
    while i < |j.items|
      invariant 0 <= i <= |j.items|
      invariant text + PrintItems(j, html, i) == Print(j, html)
    {
      var item := Encode(j.items[i], html);
      ItemsStep(j, html, i, "");
      NoTail(PrintItems(j, html, i));
      NoTail(PrintItems(j, html, i + 1));
      Assoc(text, Comma(i == 0), item + PrintItems(j, html, i + 1));
      Assoc(text + Comma(i == 0), item, PrintItems(j, html, i + 1));
      text := text + Comma(i == 0) + item;
      i := i + 1;
    }
    ArrayEnd(j, html);
    text := text + "]";
  }

  lemma NoTail(s: string)
    ensures s + "" == s
  {
  }

  lemma ArrayPrint(j: Json, html: bool)
    requires j.Arr?
    ensures Print(j, html) == "[" + PrintItems(j, html, 0)
  {
  }

  lemma ArrayEnd(j: Json, html: bool)
    requires j.Arr?
    ensures PrintItems(j, html, |j.items|) == "]"
  {
  }

  method EncodeMembers(j: Json) returns (text: string)
    requires j.Obj?
    ensures forall html :: text == Print(j, html)
    decreases j, 0
  {
    hide Print, PrintMembers, Quoted, StringLess;
    StringLessIsStrictTotal();
    var keys := SortedRows(StringLess, j.members.Keys);
    SortedKeysUnique(keys, j.members.Keys);
    KeysAreThere(j.members);
    ObjectPrint(j, keys);
    text := "{";
    assert keys[0..] == keys;
    var i := 0;
    while i < |keys|
      invariant 0 <= i <= |keys|
      invariant forall x :: x in keys ==> x in j.members
      invariant text + PrintMembers(j, keys[i..], i == 0) == "{" + PrintMembers(j, keys, true)
    {
      var k := keys[i];
      var value := Encode(j.members[k], true);
      assert keys[i..][0] == k && keys[i..][1..] == keys[i + 1..];
      MembersStep(j, keys[i..], i == 0, "");
      var rest := PrintMembers(j, keys[i + 1..], false);
      NoTail(rest);
      NoTail(PrintMembers(j, keys[i..], i == 0));
      var name := Quoted(k, true);
      Assoc(text, Comma(i == 0), name + (":" + (value + rest)));
      Assoc(text + Comma(i == 0), name, ":" + (value + rest));
      Assoc(text + Comma(i == 0) + name, ":", value + rest);
      Assoc(text + Comma(i == 0) + name + ":", value, rest);
      text := text + Comma(i == 0) + name + ":" + value;
      i := i + 1;
    }
    ObjectEnd(j, keys, i == 0);
    text := text + "}";
  }

  lemma ObjectPrint(j: Json, keys: seq<string>)
    requires j.Obj? && keys == SortedKeys(j.members.Keys)
    ensures (forall x :: x in keys ==> x in j.members) && forall html :: Print(j, html) == "{" + PrintMembers(j, keys, true)
  {
    KeysAreThere(j.members);
  }

  lemma ObjectEnd(j: Json, keys: seq<string>, first: bool)
    requires j.Obj?
    ensures PrintMembers(j, keys[|keys|..], first) == "}"
  {
  }
}
