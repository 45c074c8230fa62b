/** A reader of JSON texts written down from the grammar of RFC 8259, and the proof that it gives
    back every value from its canonical text. */
module JsonReader {
  import opened Common
  import opened Order
  import opened CanonicalJson

  datatype Read<+T> = Fail | Got(value: T, rest: string)

  // ---- Section 2: white space ----

  predicate IsSpace(ch: char) {
    ch == ' ' || ch == '\t' || ch == '\n' || ch == '\r'
  }

  function Skip(s: string): (r: string)
    ensures |r| <= |s|
  {
    if s != "" && IsSpace(s[0]) then Skip(s[1..]) else s
  }

  // ---- Section 6: numbers ----

  predicate Digits(s: string) {
    s != "" && forall i :: 0 <= i < |s| ==> '0' <= s[i] <= '9'
  }

  predicate IsInt(s: string) {
    Digits(s) && (s[0] != '0' || |s| == 1)
  }

  predicate IsFrac(s: string) {
    s == "" || (s[0] == '.' && Digits(s[1..]))
  }

  predicate IsExp(s: string) {
    s == "" || ((s[0] == 'e' || s[0] == 'E')
                && (Digits(s[1..]) || (|s| >= 2 && (s[1] == '+' || s[1] == '-') && Digits(s[2..]))))
  }

  ghost predicate NumberParts(s: string, minus: string, whole: string, frac: string, exp: string) {
    s == minus + whole + frac + exp && (minus == "" || minus == "-") && IsInt(whole) && IsFrac(frac) && IsExp(exp)
  }

  ghost predicate IsNumber(s: string) {
    exists minus, whole, frac, exp :: NumberParts(s, minus, whole, frac, exp)
  }

  predicate InNumber(ch: char) {
    '0' <= ch <= '9' || ch == '-' || ch == '+' || ch == '.' || ch == 'e' || ch == 'E'
  }

  /** How many of the first characters can be in a number. */
  function RunLength(s: string): (n: nat)
    ensures n <= |s|
  {
    if s == "" || !InNumber(s[0]) then 0 else 1 + RunLength(s[1..])
  }

  // ---- Section 7: strings ----

  function HexValue(ch: char): int {
    if '0' <= ch <= '9' then ch as int - '0' as int
    else if 'a' <= ch <= 'f' then ch as int - 'a' as int + 10
    else if 'A' <= ch <= 'F' then ch as int - 'A' as int + 10
    else -1
  }

  /** The code that four hexadecimal digits spell. */
  function CodeOf(s: string): Option<nat>
    requires |s| == 4
  {
    var a, b, c, d := HexValue(s[0]), HexValue(s[1]), HexValue(s[2]), HexValue(s[3]);
    if a < 0 || b < 0 || c < 0 || d < 0 then None else Some(((a * 16 + b) * 16 + c) * 16 + d)
  }

  /** The character that an escape stands for and the number of characters it takes; two escapes
      of surrogates stand for one character. */
  function Unescape(s: string): Option<(char, nat)>
    requires s != "" && s[0] == '\\'
  {
    if |s| < 2 then None
    else match s[1]
      case '\"' => Some(('\"', 2))
      case '\\' => Some(('\\', 2))
      case '/' => Some(('/', 2))
      case 'b' => Some((0x08 as char, 2))
      case 'f' => Some((0x0C as char, 2))
      case 'n' => Some((0x0A as char, 2))
      case 'r' => Some((0x0D as char, 2))
      case 't' => Some((0x09 as char, 2))
      case 'u' => UnescapeCode(s)
      case _ => None
  }

  function UnescapeCode(s: string): Option<(char, nat)>
    requires |s| >= 2
  {
    if |s| < 6 || CodeOf(s[2..6]).None? then None
    else
      var code := CodeOf(s[2..6]).value;
      if code < 0xD800 || 0xE000 <= code < 0x1_0000 then Some((code as char, 6))
      else if code < 0xDC00 && |s| >= 12 && s[6] == '\\' && s[7] == 'u' && CodeOf(s[8..12]).Some?
              && 0xDC00 <= CodeOf(s[8..12]).value < 0xE000
      then Some(((0x1_0000 + (code - 0xD800) * 0x400 + CodeOf(s[8..12]).value - 0xDC00) as char, 12))
      else None
  }

  /** The characters up to the closing quotation mark. */
  function ReadChars(s: string): (r: Read<string>)
    ensures r.Got? ==> |r.rest| < |s|
    decreases |s|
  {
    if s == "" then Fail
    else if s[0] == '\"' then Got("", s[1..])
    else if s[0] == '\\' then
      match Unescape(s)
      case None => Fail
      case Some(u) => if u.1 == 0 || u.1 > |s| then Fail else Before(u.0, ReadChars(s[u.1..]))
    else if s[0] as int < 0x20 then Fail
    else Before(s[0], ReadChars(s[1..]))
  }

  function Before(ch: char, r: Read<string>): Read<string> {
    match r
    case Got(v, rest) => Got([ch] + v, rest)
    case Fail => Fail
  }

  // ---- Sections 3 to 5: values, objects, arrays ----

  predicate StartsWith(s: string, word: string) {
    |word| <= |s| && s[..|word|] == word
  }

  /** A later member of the same name replaces an earlier one. */
  function AsMap(members: seq<(string, Json)>): map<string, Json> {
    if members == [] then map[] else AsMap(members[..|members| - 1])[members[|members| - 1].0 := members[|members| - 1].1]
  }

  ghost function ReadValue(s: string): (r: Read<Json>)
    ensures r.Got? ==> |r.rest| < |s|
    decreases |s|, 0
  {
    var t := Skip(s);
    if t == "" then Fail
    else if t[0] == '{' then ReadObject(t[1..])
    else if t[0] == '[' then ReadArray(t[1..])
    else if t[0] == '\"' then
      match ReadChars(t[1..])
      case Got(v, rest) => Got(Str(v), rest)
      case Fail => Fail
    else if StartsWith(t, "null") then Got(Null, t[4..])
    else if StartsWith(t, "true") then Got(Bool(true), t[4..])
    else if StartsWith(t, "false") then Got(Bool(false), t[5..])
    else if RunLength(t) > 0 && IsNumber(t[..RunLength(t)]) then Got(Num(t[..RunLength(t)]), t[RunLength(t)..])
    else Fail
  }

  /** An object after its opening brace. */
  ghost function ReadObject(s: string): (r: Read<Json>)
    ensures r.Got? ==> |r.rest| < |s|
    decreases |s|, 2
  {
    var t := Skip(s);
    if t != "" && t[0] == '}' then Got(Obj(map[]), t[1..])
    else match ReadMembers(s)
      case Got(members, rest) => Got(Obj(AsMap(members)), rest)
      case Fail => Fail
  }

  /** An array after its opening bracket. */
  ghost function ReadArray(s: string): (r: Read<Json>)
    ensures r.Got? ==> |r.rest| < |s|
    decreases |s|, 2
  {
    var t := Skip(s);
    if t != "" && t[0] == ']' then Got(Arr([]), t[1..])
    else match ReadItems(s)
      case Got(items, rest) => Got(Arr(items), rest)
      case Fail => Fail
  }

  /** One or more values, with the closing bracket. */
  ghost function ReadItems(s: string): (r: Read<seq<Json>>)
    ensures r.Got? ==> |r.rest| < |s|
    decreases |s|, 1
  {
    match ReadValue(s)
    case Fail => Fail
    case Got(v, rest) =>
      var t := Skip(rest);
      if t == "" then Fail
      else if t[0] == ']' then Got([v], t[1..])
      else if t[0] != ',' then Fail
      else match ReadItems(t[1..])
        case Got(more, end) => Got([v] + more, end)
        case Fail => Fail
  }

  /** One or more members in their order, with the closing brace. */
  ghost function ReadMembers(s: string): (r: Read<seq<(string, Json)>>)
    ensures r.Got? ==> |r.rest| < |s|
    decreases |s|, 1
  {
    var t := Skip(s);
    if t == "" || t[0] != '\"' then Fail
    else match ReadChars(t[1..])
      case Fail => Fail
      case Got(name, rest) =>
        var u := Skip(rest);
        if u == "" || u[0] != ':' then Fail
        else match ReadValue(u[1..])
          case Fail => Fail
          case Got(v, after) => ReadMore(name, v, after)
  }

  /** What follows a member. */
  ghost function ReadMore(name: string, v: Json, s: string): (r: Read<seq<(string, Json)>>)
    ensures r.Got? ==> |r.rest| < |s|
    decreases |s|, 2
  {
    var t := Skip(s);
    if t == "" then Fail
    else if t[0] == '}' then Got([(name, v)], t[1..])
    else if t[0] != ',' then Fail
    else match ReadMembers(t[1..])
      case Got(more, end) => Got([(name, v)] + more, end)
      case Fail => Fail
  }

  /** A whole text is one value, with white space around it. */
  ghost function ReadText(s: string): Option<Json> {
    match ReadValue(s)
    case Got(v, rest) => if Skip(rest) == "" then Some(v) else None
    case Fail => None
  }

  /** Every number of the value is one of the grammar. */
  ghost predicate InGrammar(j: Json) {
    match j
    case Num(t) => IsNumber(t)
    case Arr(items) => forall i :: 0 <= i < |items| ==> InGrammar(items[i])
    case Obj(members) => forall k :: k in members ==> InGrammar(members[k])
    case _ => true
  }

  // ---- Reading what was printed ----

  lemma NoSpace(s: string)
    requires s == "" || !IsSpace(s[0])
    ensures Skip(s) == s
  {
  }

  lemma HexReads(n: nat)
    requires n < 16
    ensures HexValue(HexDigit(n)) == n
  {
  }

  lemma CodeReads(n: nat)
    requires n < 65536
    ensures CodeOf(Hex4(n)) == Some(n)
  {
    var m := n / 16;
    var l := m / 16;
    HexReads(l / 16);
    HexReads(l % 16);
    HexReads(m % 16);
    HexReads(n % 16);
    hide HexValue, HexDigit;
    assert n == m * 16 + n % 16 && m == l * 16 + m % 16 && l == l / 16 * 16 + l % 16;
  }

  /** The reader takes one printed character off the front. */
  lemma UnitReads(ch: char, html: bool, rest: string)
    ensures ReadChars(Unit(ch, html) + rest) == Before(ch, ReadChars(rest))
  {
    var s := Unit(ch, html) + rest;
    assert s[0] == Unit(ch, html)[0];
    if Short(ch) {
      assert s[1] == ShortLetter(ch) && s[2..] == rest;
    } else if Wide(ch, html) {
      CodeReads(ch as int);
      assert s[1] == 'u' && s[2..6] == Hex4(ch as int) && s[6..] == rest;
    } else {
      assert s[1..] == rest;
    }
  }

  lemma {:induction false} CharsRead(s: string, html: bool, r: string)
    ensures ReadChars(Escaped(s, html) + "\"" + r) == Got(s, r)
    decreases |s|
  {
    if s == "" {
      assert Escaped(s, html) + "\"" + r == ['\"'] + r;
      assert (['\"'] + r)[1..] == r;
    } else {
      EscapedStep(s, html, r);
      hide Unit, Escaped;
      UnitReads(s[0], html, Escaped(s[1..], html) + "\"" + r);
      CharsRead(s[1..], html, r);
      assert [s[0]] + s[1..] == s;
    }
  }

  lemma QuotedReads(s: string, html: bool, r: string)
    ensures var t := Quoted(s, html) + r; t != "" && t[0] == '\"' && ReadChars(t[1..]) == Got(s, r)
  {
    hide Escaped, ReadChars;
    CharsRead(s, html, r);
    var t := Quoted(s, html) + r;
    assert t[1..] == Escaped(s, html) + "\"" + r;
  }

  lemma NumberHasShape(s: string)
    requires IsNumber(s)
    ensures NumberText(s) && forall i :: 0 <= i < |s| ==> InNumber(s[i])
  {
    var minus, whole, frac, exp :| NumberParts(s, minus, whole, frac, exp);
    assert forall i :: 0 < i < |frac| ==> frac[i] == frac[1..][i - 1];
    assert forall i :: 0 < i < |exp| ==> exp[i] == exp[1..][i - 1];
    assert forall i :: 1 < i < |exp| ==> exp[i] == exp[2..][i - 2];
    assert s[0] == if minus == "" then whole[0] else '-';
    PartsAreNumberChars(minus, whole, frac, exp);
  }

  lemma PartsAreNumberChars(minus: string, whole: string, frac: string, exp: string)
    requires (minus == "" || minus == "-") && IsInt(whole) && IsFrac(frac) && IsExp(exp)
    ensures forall i :: 0 <= i < |minus + whole + frac + exp| ==> InNumber((minus + whole + frac + exp)[i])
  {
    forall i | 0 <= i < |frac|
      ensures InNumber(frac[i])
    {
      assert i > 0 ==> frac[i] == frac[1..][i - 1];
    }
    forall i | 0 <= i < |exp|
      ensures InNumber(exp[i])
    {
      assert i > 0 ==> exp[i] == exp[1..][i - 1];
      assert i > 1 ==> exp[i] == exp[2..][i - 2];
    }
  }

  lemma {:induction false} RunOfNumber(a: string, r: string)
    requires (forall i :: 0 <= i < |a| ==> InNumber(a[i])) && (r == "" || !InNumber(r[0]))
    ensures RunLength(a + r) == |a|
    decreases |a|
  {
    if a == "" {
      assert a + r == r;
    } else {
      assert (a + r)[1..] == a[1..] + r;
      RunOfNumber(a[1..], r);
    }
  }

  lemma GrammarIsWellFormed(j: Json)
    requires InGrammar(j)
    ensures WellFormed(j)
  {
    match j {
      case Num(t) => NumberHasShape(t);
      case Arr(items) =>
        forall i | 0 <= i < |items|
          ensures WellFormed(items[i])
        {
          GrammarIsWellFormed(items[i]);
        }
      case Obj(members) =>
        forall k | k in members
          ensures WellFormed(members[k])
        {
          GrammarIsWellFormed(members[k]);
        }
      case _ =>
    }
  }

  lemma NumberReads(t: string, r: string)
    requires IsNumber(t) && Follows(r)
    ensures ReadValue(t + r) == Got(Num(t), r)
  {
    NumberHasShape(t);
    RunOfNumber(t, r);
    hide IsNumber;
    var s := t + r;
    assert s[0] == t[0] && InNumber(s[0]);
    NoSpace(s);
    assert s[..|t|] == t && s[|t|..] == r;
    assert !StartsWith(s, "null") && !StartsWith(s, "true") && !StartsWith(s, "false") by {
      FirstOfWord(s, "null");
      FirstOfWord(s, "true");
      FirstOfWord(s, "false");
    }
  }

  lemma FirstOfWord(s: string, word: string)
    requires s != "" && word != "" && s[0] != word[0]
    ensures !StartsWith(s, word)
  {
    if |word| <= |s| {
      assert s[..|word|][0] == s[0];
    }
  }

  lemma WordReads(word: string, r: string)
    requires word == "null" || word == "true" || word == "false"
    ensures ReadValue(word + r) == Got(if word == "null" then Null else Bool(word == "true"), r)
  {
    var s := word + r;
    assert s[0] == word[0];
    NoSpace(s);
    assert s[..|word|] == word && s[|word|..] == r;
    if word != "null" {
      FirstOfWord(s, "null");
    }
    if word == "false" {
      FirstOfWord(s, "true");
    }
  }

  lemma StringReads(v: string, html: bool, r: string)
    ensures ReadValue(Quoted(v, html) + r) == Got(Str(v), r)
  {
    hide Quoted, ReadChars;
    QuotedReads(v, html, r);
    NoSpace(Quoted(v, html) + r);
  }

  /** The reader gives back a printed value and what follows it. */
  lemma {:induction false} PrintReads(j: Json, html: bool, r: string)
    requires InGrammar(j) && Follows(r)
    ensures ReadValue(Print(j, html) + r) == Got(j, r)
    decreases j, 3, 0, 0
  {
    match j {
      case Null => WordReads("null", r);
      case Bool(b) => WordReads(if b then "true" else "false", r);
      case Num(t) => NumberReads(t, r);
      case Str(v) => StringReads(v, html, r);
      case Arr(items) => ArrayReads(j, html, r);
      case Obj(members) => ObjectReads(j, html, r);
    }
  }

  lemma {:induction false} ArrayReads(j: Json, html: bool, r: string)
    requires j.Arr? && InGrammar(j) && Follows(r)
    ensures ReadValue(Print(j, html) + r) == Got(j, r)
    decreases j, 2, 0, 0
  {
    var s, rest := Print(j, html) + r, PrintItems(j, html, 0) + r;
    assert s == "[" + rest by {
      ArrayPrint(j, html);
      Assoc("[", PrintItems(j, html, 0), r);
    }
    hide Print, PrintItems, ReadValue, ReadItems, InGrammar, WellFormed;
    assert s[0] == '[' && s[1..] == rest;
    OpensArray(s);
    if j.items == [] {
      EmptyArrayReads(j, html, r);
    } else {
      GrammarIsWellFormed(j);
      FirstOfItems(j, html, r);
      NoSpace(rest);
      ItemsRead(j, html, 0, r);
      assert j.items[0..] == j.items;
    }
  }

  lemma EmptyArrayReads(j: Json, html: bool, r: string)
    requires j.Arr? && j.items == []
    ensures ReadArray(PrintItems(j, html, 0) + r) == Got(j, r)
  {
    ArrayEnd(j, html);
    var rest := PrintItems(j, html, 0) + r;
    hide PrintItems, ReadItems;
    NoSpace(rest);
    assert rest[0] == ']' && rest[1..] == r;
  }

  lemma OpensArray(s: string)
    requires s != "" && s[0] == '['
    ensures ReadValue(s) == ReadArray(s[1..])
  {
    hide ReadArray;
    NoSpace(s);
  }

  lemma OpensObject(s: string)
    requires s != "" && s[0] == '{'
    ensures ReadValue(s) == ReadObject(s[1..])
  {
    hide ReadObject;
    NoSpace(s);
  }

  lemma FirstOfItems(j: Json, html: bool, r: string)
    requires j.Arr? && j.items != [] && WellFormed(j)
    ensures var rest := PrintItems(j, html, 0) + r;
            rest == Print(j.items[0], html) + (PrintItems(j, html, 1) + r)
            && rest != "" && !IsSpace(rest[0]) && rest[0] != ']'
  {
    ItemsStep(j, html, 0, r);
    FirstCharacter(j.items[0], html);
    hide Print, PrintItems;
    var rest := Print(j.items[0], html) + (PrintItems(j, html, 1) + r);
    assert Comma(true) + rest == rest;
    assert rest[0] == Print(j.items[0], html)[0];
  }

  lemma {:induction false} ItemsRead(j: Json, html: bool, i: nat, r: string)
    requires j.Arr? && InGrammar(j) && i < |j.items|
    ensures ReadItems(Print(j.items[i], html) + (PrintItems(j, html, i + 1) + r)) == Got(j.items[i..], r)
    decreases j, 1, |j.items| - i, 0
  {
    var rest := PrintItems(j, html, i + 1) + r;
    ItemsFollow(j, html, i + 1, r);
    PrintReads(j.items[i], html, rest);
    hide Print, ReadValue, InGrammar;
    if i + 1 == |j.items| {
      ArrayEnd(j, html);
      hide PrintItems;
      NoSpace(rest);
      assert rest[0] == ']' && rest[1..] == r;
      assert j.items[i..] == [j.items[i]];
    } else {
      ItemsStep(j, html, i + 1, r);
      hide PrintItems;
      var next := Print(j.items[i + 1], html) + (PrintItems(j, html, i + 2) + r);
      assert rest == "," + next;
      assert rest[0] == ',' && rest[1..] == next;
      NoSpace(rest);
      ItemsRead(j, html, i + 1, r);
      assert j.items[i..] == [j.items[i]] + j.items[i + 1..];
    }
  }

  /** The members under the given keys, in that order. */
  ghost function Listed(j: Json, keys: seq<string>): seq<(string, Json)>
    requires j.Obj? && forall k :: k in keys ==> k in j.members
  {
    seq(|keys|, i requires 0 <= i < |keys| => (keys[i], j.members[keys[i]]))
  }

  lemma {:induction false} ListedIsMap(j: Json, keys: seq<string>)
    requires j.Obj? && forall k :: k in keys ==> k in j.members
    ensures AsMap(Listed(j, keys)).Keys == Elements(keys)
    ensures forall k :: k in keys ==> AsMap(Listed(j, keys))[k] == j.members[k]
    decreases |keys|
  {
    if keys != [] {
      var before, last := keys[..|keys| - 1], keys[|keys| - 1];
      ListedIsMap(j, before);
      assert keys == before + [last];
      assert Listed(j, keys)[..|keys| - 1] == Listed(j, before);
      assert Elements(keys) == Elements(before) + {last};
    }
  }

  lemma {:induction false} ObjectReads(j: Json, html: bool, r: string)
    requires j.Obj? && InGrammar(j) && Follows(r)
    ensures ReadValue(Print(j, html) + r) == Got(j, r)
    decreases j, 2, 0, 0
  {
    KeysAreThere(j.members);
    var keys := SortedKeys(j.members.Keys);
    ObjectPrint(j, keys);
    var s, rest := Print(j, html) + r, PrintMembers(j, keys, true) + r;
    hide Print, ReadMembers, InGrammar, SortedKeys, StringLess;
    assert s == "{" + rest by {
      Assoc("{", PrintMembers(j, keys, true), r);
    }
    assert s[0] == '{' && s[1..] == rest;
    OpensObject(s);
    if keys == [] {
      NoMembers(j, r);
      hide PrintMembers;
      NoSpace(rest);
      assert rest[0] == '}' && rest[1..] == r;
      assert Elements(keys) == {};
      assert j.members == map[];
    } else {
      MembersRead(j, keys, true, r);
      MembersStep(j, keys, true, r);
      hide PrintMembers;
      NoSpace(rest);
      WholeMap(j, keys);
    }
  }

  lemma WholeMap(j: Json, keys: seq<string>)
    requires j.Obj? && Elements(keys) == j.members.Keys && forall k :: k in keys ==> k in j.members
    ensures AsMap(Listed(j, keys)) == j.members
  {
    ListedIsMap(j, keys);
    SameMembers(AsMap(Listed(j, keys)), j.members, keys);
  }

  lemma {:induction false} MembersRead(j: Json, keys: seq<string>, first: bool, r: string)
    requires j.Obj? && InGrammar(j) && keys != [] && forall k :: k in keys ==> k in j.members
    ensures var s := PrintMembers(j, keys, first) + r;
            s != "" && s[0] == (if first then '\"' else ',')
            && ReadMembers(if first then s else s[1..]) == Got(Listed(j, keys), r)
    decreases j, 1, |keys|, 1
  {
    var k, v := keys[0], j.members[keys[0]];
    var after := PrintMembers(j, keys[1..], false) + r;
    var value := Print(v, true) + after;
    var body := Quoted(k, true) + (":" + value);
    MembersStep(j, keys, first, r);
    MembersFollow(j, keys[1..], r);
    PrintReads(v, true, after);
    AfterMember(j, keys, r);
    hide Print, Quoted, ReadValue, ReadMore, InGrammar, PrintMembers, Follows;
    var s := PrintMembers(j, keys, first) + r;
    assert s == Comma(first) + body;
    assert (if first then s else s[1..]) == body;
    QuotedReads(k, true, ":" + value);
    NoSpace(body);
    NoSpace(":" + value);
    assert (":" + value)[0] == ':' && (":" + value)[1..] == value;
    assert ReadMembers(body) == ReadMore(k, v, after);
  }

  lemma {:induction false} AfterMember(j: Json, keys: seq<string>, r: string)
    requires j.Obj? && InGrammar(j) && keys != [] && forall k :: k in keys ==> k in j.members
    ensures ReadMore(keys[0], j.members[keys[0]], PrintMembers(j, keys[1..], false) + r) == Got(Listed(j, keys), r)
    decreases j, 1, |keys|, 0
  {
    var rest := PrintMembers(j, keys[1..], false) + r;
    if keys[1..] == [] {
      NoMembers(j, r);
      hide PrintMembers, ReadMembers;
      NoSpace(rest);
      assert rest[0] == '}' && rest[1..] == r;
      assert Listed(j, keys) == [(keys[0], j.members[keys[0]])];
    } else {
      MembersRead(j, keys[1..], false, r);
      hide PrintMembers, ReadMembers;
      NoSpace(rest);
      assert Listed(j, keys) == [(keys[0], j.members[keys[0]])] + Listed(j, keys[1..]);
    }
  }

  /** canonicalJSON: whatever the value, its text reads back as that value. */
  method CanonicalText(j: Json) returns (text: string)
    ensures text == Canonical(j)
    ensures InGrammar(j) ==> ReadText(text) == Some(j)
  {
    text := Encode(j, false);
    if InGrammar(j) {
      TextReads(j, text);
    }
  }

  lemma TextReads(j: Json, text: string)
    requires InGrammar(j) && text == Print(j, false)
    ensures ReadText(text) == Some(j)
  {
    PrintReads(j, false, "");
    hide Print, ReadValue;
    assert text + "" == text;
  }

  lemma SomeKey(m: map<string, Json>, keys: seq<string>)
    requires Elements(keys) == m.Keys && m != map[]
    ensures keys != []
  {
    var k :| k in m;
    assert k in Elements(keys);
  }

  /** The members of an object are written in increasing order of their keys. */
  lemma MembersAreInOrder(j: Json, html: bool) returns (members: seq<(string, Json)>)
    requires j.Obj? && InGrammar(j) && j.members != map[]
    ensures ReadMembers(Print(j, html)[1..]) == Got(members, "") && AsMap(members) == j.members
    ensures forall a, b :: 0 <= a < b < |members| ==> StringLess(members[a].0, members[b].0)
  {
    KeysAreThere(j.members);
    var keys := SortedKeys(j.members.Keys);
    ObjectPrint(j, keys);
    hide Print, ReadMembers, StringLess;
    SomeKey(j.members, keys);
    members := Listed(j, keys);
    MembersRead(j, keys, true, "");
    WholeMap(j, keys);
    var body := PrintMembers(j, keys, true);
    assert body + "" == body && ("{" + body)[1..] == body;
  }

  /** A character stands for itself unless it is a quote, a backslash, a control character or a
      line separator, or one of HTML where those are escaped; the seven with a two-character
      escape have that one, the others a six-character one in lower-case digits. */
  lemma UnitSays(ch: char, html: bool)
    ensures var unit, n := Unit(ch, html), ch as int;
            var brief := n in {8, 9, 10, 12, 13} || ch == '\"' || ch == '\\';
            && (unit == [ch] <==> !brief && n >= 32 && n != 0x2028 && n != 0x2029 && !(html && ch in {'<', '>', '&'}))
            && (unit == [ch] || |unit| == if brief then 2 else 6)
            && (|unit| == 6 ==> unit[..2] == "\\u" && forall i :: 2 <= i < 6 ==> '0' <= unit[i] <= '9' || 'a' <= unit[i] <= 'f')
  {
    if Wide(ch, html) {
      LowerDigits(ch as int);
      var unit := Unit(ch, html);
      assert forall i :: 2 <= i < 6 ==> unit[i] == Hex4(ch as int)[i - 2];
    }
    hide Hex4;
  }

  lemma LowerDigits(n: nat)
    requires n < 65536
    ensures forall i :: 0 <= i < 4 ==> '0' <= Hex4(n)[i] <= '9' || 'a' <= Hex4(n)[i] <= 'f'
  {
  }
}
