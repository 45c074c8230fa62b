/** Path globs: the translation of a pattern into a regular expression, what that expression
    accepts, and a direct matcher for the pattern. */
module Glob {

  /** Backslashes in patterns and paths count as slashes. */
  function Slashed(s: string): (r: string)
    ensures |r| == |s| && forall i :: 0 <= i < |s| ==> r[i] == (if s[i] == '\\' then '/' else s[i])
  {
    seq(|s|, i requires 0 <= i < |s| => if s[i] == '\\' then '/' else s[i])
  }

  // ---- Regular expressions ----

  /** The expressions the translation writes. Dot is '.', which leaves out the newline. */
  datatype Re = Empty | Lit(c: char) | Dot | NotSlash | Star(body: Re) | Opt(body: Re) | Cat(left: Re, right: Re)

  /** The language of an expression anchored at both ends. */
  ghost predicate Accepts(r: Re, s: string)
    decreases r, |s|
  {
    match r
    case Empty => s == ""
    case Lit(c) => s == [c]
    case Dot => |s| == 1 && s[0] != '\n'
    case NotSlash => |s| == 1 && s[0] != '/'
    case Star(x) => s == "" || exists k :: 0 < k <= |s| && Accepts(x, s[..k]) && Accepts(r, s[k..])
    case Opt(x) => s == "" || Accepts(x, s)
    case Cat(x, y) => exists k :: 0 <= k <= |s| && Accepts(x, s[..k]) && Accepts(y, s[k..])
  }

  function Concat(atoms: seq<Re>): Re {
    if atoms == [] then Empty else Cat(atoms[0], Concat(atoms[1..]))
  }

  const ANY_PATH := Star(Dot)                            // .*
  const ANY_DIRS := Opt(Cat(Star(Dot), Lit('/')))        // (?:.*/)?
  const ANY_NAME := Star(NotSlash)                       // [^/]*

  predicate DoubleStar(p: string) {
    |p| > 1 && p[0] == '*' && p[1] == '*'
  }

  predicate DirStar(p: string) {
    |p| > 2 && DoubleStar(p) && p[2] == '/'
  }

  /** The pattern's first token and how many characters it takes. */
  function FirstToken(p: string): (t: (Re, nat))
    requires p != ""
    ensures 1 <= t.1 <= |p|
  {
    if p[0] == '*' then
      if DoubleStar(p) then
        if DirStar(p) then (ANY_DIRS, 3) else (ANY_PATH, 2)
      else (ANY_NAME, 1)
    else if p[0] == '?' then (NotSlash, 1)
    else (Lit(p[0]), 1)
  }

  function Tokens(p: string): seq<Re> {
    if p == "" then [] else [FirstToken(p).0] + Tokens(p[FirstToken(p).1..])
  }

  lemma TokensStep(p: string, i: nat)
    requires i < |p|
    ensures var (t, n) := FirstToken(p[i..]); i + n <= |p| && Tokens(p[i..]) == [t] + Tokens(p[i + n..])
  {
    var (t, n) := FirstToken(p[i..]);
    assert p[i..][n..] == p[i + n..];
  }

  lemma EmptyTokens(p: string)
    requires p == ""
    ensures Tokens(p) == []
  {
  }

  /** The loop of globMatch that writes the expression. */
  method Translate(p: string) returns (atoms: seq<Re>)
    ensures atoms == Tokens(p)
  {
    hide Tokens;
    atoms := [];
    var i := 0;
    assert p[0..] == p;
    while i < |p|
      invariant 0 <= i <= |p|
      invariant atoms + Tokens(p[i..]) == Tokens(p)
    {
      TokensStep(p, i);
      ghost var (token, n) := FirstToken(p[i..]);
      ghost var before := atoms;
      ghost var start := i;
      if p[i] == '*' {
        if i + 1 < |p| && p[i + 1] == '*' {
          i := i + 1;
          if i + 1 < |p| && p[i + 1] == '/' {
            i := i + 1;
            atoms := atoms + [ANY_DIRS];
          } else {
            atoms := atoms + [ANY_PATH];
          }
        } else {
          atoms := atoms + [ANY_NAME];
        }
      } else if p[i] == '?' {
        atoms := atoms + [NotSlash];
      } else {
        atoms := atoms + [Lit(p[i])];
      }
      i := i + 1;
      assert i == start + n && atoms == before + [token];
      assert atoms + Tokens(p[i..]) == before + ([token] + Tokens(p[i..]));
    }
    EmptyTokens(p[i..]);
  }

  // ---- What a glob means ----

  predicate NoNewline(s: string) {
    forall i :: 0 <= i < |s| ==> s[i] != '\n'
  }

  predicate NoSlash(s: string) {
    forall i :: 0 <= i < |s| ==> s[i] != '/'
  }

  /** '**' followed by '/' stands for nothing or for any directories; another '**' for anything
      but newlines; '*' for anything inside one path component; '?' for one character of one. */
  ghost predicate Means(p: string, s: string)
    decreases |p|
  {
    if p == "" then s == ""
    else if DirStar(p) then
      Means(p[3..], s) || exists k :: 0 <= k < |s| && s[k] == '/' && NoNewline(s[..k]) && Means(p[3..], s[k + 1..])
    else if DoubleStar(p) then
      exists k :: 0 <= k <= |s| && NoNewline(s[..k]) && Means(p[2..], s[k..])
    else if p[0] == '*' then
      exists k :: 0 <= k <= |s| && NoSlash(s[..k]) && Means(p[1..], s[k..])
    else if p[0] == '?' then s != "" && s[0] != '/' && Means(p[1..], s[1..])
    else s != "" && s[0] == p[0] && Means(p[1..], s[1..])
  }

  /** Directories up to k are followed by a match of the rest. */
  ghost predicate DirsAt(rest: string, s: string, k: nat) {
    k < |s| && s[k] == '/' && NoNewline(s[..k]) && Means(rest, s[k + 1..])
  }

  /** Text without newlines up to k is. */
  ghost predicate PathAt(rest: string, s: string, k: nat) {
    k <= |s| && NoNewline(s[..k]) && Means(rest, s[k..])
  }

  /** Text without slashes up to k is. */
  ghost predicate NameAt(rest: string, s: string, k: nat) {
    k <= |s| && NoSlash(s[..k]) && Means(rest, s[k..])
  }

  ghost predicate DirsThen(rest: string, s: string) {
    exists k: nat :: DirsAt(rest, s, k)
  }

  ghost predicate PathThen(rest: string, s: string) {
    exists k: nat :: PathAt(rest, s, k)
  }

  ghost predicate NameThen(rest: string, s: string) {
    exists k: nat :: NameAt(rest, s, k)
  }

  lemma DirsMeans(p: string, s: string)
    requires DirStar(p)
    ensures Means(p, s) <==> Means(p[3..], s) || DirsThen(p[3..], s)
  {
    if k :| 0 <= k < |s| && s[k] == '/' && NoNewline(s[..k]) && Means(p[3..], s[k + 1..]) {
      assert DirsAt(p[3..], s, k);
    }
  }

  lemma PathMeans(p: string, s: string)
    requires DoubleStar(p) && !DirStar(p)
    ensures Means(p, s) <==> PathThen(p[2..], s)
  {
    if k :| 0 <= k <= |s| && NoNewline(s[..k]) && Means(p[2..], s[k..]) {
      assert PathAt(p[2..], s, k);
    }
  }

  lemma NameMeans(p: string, s: string)
    requires p != "" && p[0] == '*' && !DoubleStar(p)
    ensures Means(p, s) <==> NameThen(p[1..], s)
  {
    if k :| 0 <= k <= |s| && NoSlash(s[..k]) && Means(p[1..], s[k..]) {
      assert NameAt(p[1..], s, k);
    }
  }

  lemma {:induction false} StarNotSlash(s: string)
    ensures Accepts(ANY_NAME, s) <==> NoSlash(s)
    decreases |s|
  {
    if s != "" {
      StarNotSlash(s[1..]);
      if Accepts(ANY_NAME, s) {
        var k :| 0 < k <= |s| && Accepts(NotSlash, s[..k]) && Accepts(ANY_NAME, s[k..]);
        assert s == [s[0]] + s[1..];
      }
      if NoSlash(s) {
        assert Accepts(NotSlash, s[..1]) && Accepts(ANY_NAME, s[1..]);
      }
    }
  }

  lemma {:induction false} StarDot(s: string)
    ensures Accepts(ANY_PATH, s) <==> NoNewline(s)
    decreases |s|
  {
    if s != "" {
      StarDot(s[1..]);
      if Accepts(ANY_PATH, s) {
        var k :| 0 < k <= |s| && Accepts(Dot, s[..k]) && Accepts(ANY_PATH, s[k..]);
        assert s == [s[0]] + s[1..];
      }
      if NoNewline(s) {
        assert Accepts(Dot, s[..1]) && Accepts(ANY_PATH, s[1..]);
      }
    }
  }

  /** The directory token accepts the empty string and every newline-free string that ends in
      a slash. */
  lemma AnyDirs(s: string)
    ensures Accepts(ANY_DIRS, s) <==> s == "" || (s[|s| - 1] == '/' && NoNewline(s[..|s| - 1]))
  {
    if s != "" {
      DirsSplit(s);
      StarDot(s[..|s| - 1]);
    }
  }

  lemma DirsSplit(s: string)
    requires s != ""
    ensures Accepts(Cat(Star(Dot), Lit('/')), s) <==> Accepts(Star(Dot), s[..|s| - 1]) && s[|s| - 1] == '/'
  {
    hide Accepts;
    var k := |s| - 1;
    assert s[k..] == [s[k]];
    if Accepts(Cat(Star(Dot), Lit('/')), s) {
      var j := CutAt(Star(Dot), Lit('/'), s);
      LitAlone('/', s[j..]);
      assert j == k && s[j..][0] == s[j];
    }
    if Accepts(Star(Dot), s[..k]) && s[k] == '/' {
      LitAlone('/', s[k..]);
      OneMore(Star(Dot), Lit('/'), s, k);
    }
  }

  lemma LitAlone(c: char, s: string)
    ensures Accepts(Lit(c), s) <==> s == [c]
  {
  }

  lemma CutAt(t: Re, rest: Re, s: string) returns (k: nat)
    requires Accepts(Cat(t, rest), s)
    ensures k <= |s| && Accepts(t, s[..k]) && Accepts(rest, s[k..])
  {
    k :| 0 <= k <= |s| && Accepts(t, s[..k]) && Accepts(rest, s[k..]);
  }

  lemma OneMore(t: Re, rest: Re, s: string, k: nat)
    requires k <= |s| && Accepts(t, s[..k]) && Accepts(rest, s[k..])
    ensures Accepts(Cat(t, rest), s)
  {
  }

  /** The expression written for a pattern accepts exactly the paths the pattern means. */
  lemma {:induction false} TranslationPreservesMeaning(p: string, s: string)
    ensures Accepts(Concat(Tokens(p)), s) <==> Means(p, s)
    decreases |p|
  {
    if p != "" {
      var (t, n) := FirstToken(p);
      var rest := Concat(Tokens(p[n..]));
      assert Concat(Tokens(p)) == Cat(t, rest);
      if Accepts(Cat(t, rest), s) {
        var k :| 0 <= k <= |s| && Accepts(t, s[..k]) && Accepts(rest, s[k..]);
        TranslationPreservesMeaning(p[n..], s[k..]);
        TokenMeans(p, s, k);
      }
      if Means(p, s) {
        var k := MeaningSplits(p, s);
        TranslationPreservesMeaning(p[n..], s[k..]);
        OneMore(t, rest, s, k);
      }
    }
  }

  lemma TokenMeans(p: string, s: string, k: nat)
    requires p != "" && k <= |s| && Accepts(FirstToken(p).0, s[..k]) && Means(p[FirstToken(p).1..], s[k..])
    ensures Means(p, s)
  {
    if DirStar(p) {
      AnyDirs(s[..k]);
      DirsMeans(p, s);
      hide Means, Accepts;
      if k == 0 {
        assert s[0..] == s;
      } else {
        assert s[..k][k - 1] == s[k - 1] && s[..k][..k - 1] == s[..k - 1];
        assert DirsAt(p[3..], s, k - 1);
      }
    } else if DoubleStar(p) {
      StarDot(s[..k]);
      PathMeans(p, s);
      hide Means, Accepts;
      assert PathAt(p[2..], s, k);
    } else if p[0] == '*' {
      StarNotSlash(s[..k]);
      NameMeans(p, s);
      hide Means, Accepts;
      assert NameAt(p[1..], s, k);
    } else {
      assert k == 1 && s[..k][0] == s[0];
    }
  }

  lemma MeaningSplits(p: string, s: string) returns (k: nat)
    requires p != "" && Means(p, s)
    ensures k <= |s| && Accepts(FirstToken(p).0, s[..k]) && Means(p[FirstToken(p).1..], s[k..])
  {
    if DirStar(p) {
      DirsMeans(p, s);
      hide Means, Accepts;
      if Means(p[3..], s) {
        k := 0;
        assert s[0..] == s;
        AnyDirs("");
      } else {
        var j: nat :| DirsAt(p[3..], s, j);
        k := j + 1;
        assert s[..k][..k - 1] == s[..j];
        AnyDirs(s[..k]);
      }
    } else if DoubleStar(p) {
      PathMeans(p, s);
      hide Means, Accepts;
      k :| PathAt(p[2..], s, k);
      StarDot(s[..k]);
    } else if p[0] == '*' {
      NameMeans(p, s);
      hide Means, Accepts;
      k :| NameAt(p[1..], s, k);
      StarNotSlash(s[..k]);
    } else {
      k := 1;
      assert s[..1] == [s[0]];
    }
  }

  // ---- A matcher that runs ----

  /** Matches one character at a time, trying the empty expansion of a star first. */
  predicate Matches(p: string, s: string)
    decreases |p| + |s|, 1
  {
    if p == "" then s == ""
    else if DirStar(p) then Matches(p[3..], s) || MatchesBelow(p[3..], s)
    else if DoubleStar(p) then
      Matches(p[2..], s) || (s != "" && s[0] != '\n' && Matches(p, s[1..]))
    else if p[0] == '*' then
      Matches(p[1..], s) || (s != "" && s[0] != '/' && Matches(p, s[1..]))
    else if p[0] == '?' then s != "" && s[0] != '/' && Matches(p[1..], s[1..])
    else s != "" && s[0] == p[0] && Matches(p[1..], s[1..])
  }

  /** Some newline-free directory prefix is followed by a match of the rest. */
  predicate MatchesBelow(rest: string, s: string)
    decreases |rest| + |s|, 0
  {
    s != "" && ((s[0] == '/' && Matches(rest, s[1..])) || (s[0] != '\n' && MatchesBelow(rest, s[1..])))
  }

  lemma {:induction false} MatcherDecides(p: string, s: string)
    ensures Matches(p, s) <==> Means(p, s)
    decreases |p| + |s|, 1
  {
    if p == "" {
    } else if DirStar(p) {
      DirsMeans(p, s);
      hide Means, DirsThen;
      MatcherDecides(p[3..], s);
      BelowDecides(p[3..], s);
    } else if DoubleStar(p) {
      PathMeans(p, s);
      PathThenSteps(p[2..], s);
      MatcherDecides(p[2..], s);
      if s != "" {
        PathMeans(p, s[1..]);
        MatcherDecides(p, s[1..]);
      }
      hide Means, PathThen;
    } else if p[0] == '*' {
      NameMeans(p, s);
      NameThenSteps(p[1..], s);
      MatcherDecides(p[1..], s);
      if s != "" {
        NameMeans(p, s[1..]);
        MatcherDecides(p, s[1..]);
      }
      hide Means, NameThen;
    } else if s != "" {
      MatcherDecides(p[1..], s[1..]);
    }
  }

  lemma PathThenSteps(rest: string, s: string)
    ensures PathThen(rest, s) <==> Means(rest, s) || (s != "" && s[0] != '\n' && PathThen(rest, s[1..]))
  {
    assert PathAt(rest, s, 0) <==> Means(rest, s) by {
      assert s[0..] == s;
    }
    assert s == "" ==> forall k: nat :: PathAt(rest, s, k) ==> k == 0;
    hide Means, PathAt;
    if PathThen(rest, s) {
      var k: nat :| PathAt(rest, s, k);
      if k > 0 {
        PathAtStep(rest, s, k - 1);
      }
    }
    if s != "" && s[0] != '\n' && PathThen(rest, s[1..]) {
      var k: nat :| PathAt(rest, s[1..], k);
      PathAtStep(rest, s, k);
    }
  }

  lemma PathAtStep(rest: string, s: string, k: nat)
    requires s != ""
    ensures PathAt(rest, s, k + 1) <==> s[0] != '\n' && PathAt(rest, s[1..], k)
  {
    hide Means;
    if k + 1 <= |s| {
      assert s[1..][k..] == s[k + 1..];
      assert s[..k + 1] == [s[0]] + s[1..][..k];
      NoNewlineCons(s[0], s[1..][..k]);
    }
  }

  lemma NoNewlineCons(c: char, t: string)
    ensures NoNewline([c] + t) <==> c != '\n' && NoNewline(t)
  {
    if NoNewline([c] + t) {
      assert ([c] + t)[0] == c;
      assert forall i :: 0 <= i < |t| ==> t[i] == ([c] + t)[i + 1];
    }
  }

  lemma NameThenSteps(rest: string, s: string)
    ensures NameThen(rest, s) <==> Means(rest, s) || (s != "" && s[0] != '/' && NameThen(rest, s[1..]))
  {
    assert NameAt(rest, s, 0) <==> Means(rest, s) by {
      assert s[0..] == s;
    }
    assert s == "" ==> forall k: nat :: NameAt(rest, s, k) ==> k == 0;
    hide Means, NameAt;
    if NameThen(rest, s) {
      var k: nat :| NameAt(rest, s, k);
      if k > 0 {
        NameAtStep(rest, s, k - 1);
      }
    }
    if s != "" && s[0] != '/' && NameThen(rest, s[1..]) {
      var k: nat :| NameAt(rest, s[1..], k);
      NameAtStep(rest, s, k);
    }
  }

  lemma NameAtStep(rest: string, s: string, k: nat)
    requires s != ""
    ensures NameAt(rest, s, k + 1) <==> s[0] != '/' && NameAt(rest, s[1..], k)
  {
    hide Means;
    if k + 1 <= |s| {
      assert s[1..][k..] == s[k + 1..];
      assert s[..k + 1] == [s[0]] + s[1..][..k];
      NoSlashCons(s[0], s[1..][..k]);
    }
  }

  lemma NoSlashCons(c: char, t: string)
    ensures NoSlash([c] + t) <==> c != '/' && NoSlash(t)
  {
    if NoSlash([c] + t) {
      assert ([c] + t)[0] == c;
      assert forall i :: 0 <= i < |t| ==> t[i] == ([c] + t)[i + 1];
    }
  }

  lemma {:induction false} BelowDecides(rest: string, s: string)
    ensures MatchesBelow(rest, s) <==> DirsThen(rest, s)
    decreases |rest| + |s|, 0
  {
    if s != "" {
      MatcherDecides(rest, s[1..]);
      BelowDecides(rest, s[1..]);
      DirsThenSteps(rest, s);
      hide Means, DirsThen;
    }
  }

  lemma DirsThenSteps(rest: string, s: string)
    requires s != ""
    ensures DirsThen(rest, s) <==> (s[0] == '/' && Means(rest, s[1..])) || (s[0] != '\n' && DirsThen(rest, s[1..]))
  {
    assert DirsAt(rest, s, 0) <==> s[0] == '/' && Means(rest, s[1..]);
    hide Means, DirsAt;
    if DirsThen(rest, s) {
      var k: nat :| DirsAt(rest, s, k);
      if k > 0 {
        DirsAtStep(rest, s, k - 1);
      }
    }
    if s[0] != '\n' && DirsThen(rest, s[1..]) {
      var k: nat :| DirsAt(rest, s[1..], k);
      DirsAtStep(rest, s, k);
    }
  }

  lemma DirsAtStep(rest: string, s: string, k: nat)
    requires s != ""
    ensures DirsAt(rest, s, k + 1) <==> s[0] != '\n' && DirsAt(rest, s[1..], k)
  {
    hide Means;
    if k + 1 < |s| {
      assert s[1..][k + 1..] == s[k + 1 + 1..];
      assert s[..k + 1] == [s[0]] + s[1..][..k];
      NoNewlineCons(s[0], s[1..][..k]);
    }
  }

  /** globMatch: both sides are normalised, the expression is built and run. */
  method GlobMatch(pattern: string, value: string) returns (ok: bool)
    ensures ok <==> Accepts(Concat(Tokens(Slashed(pattern))), Slashed(value))
  {
    var p, s := Slashed(pattern), Slashed(value);
    var atoms := Translate(p);
    assert atoms == Tokens(p);
    TranslationPreservesMeaning(p, s);
    MatcherDecides(p, s);
    ok := Matches(p, s);
  }

  // ---- Stars stay inside path components ----

  function Slashes(s: string): nat {
    if s == "" then 0 else (if s[0] == '/' then 1 else 0) + Slashes(s[1..])
  }

  predicate HasDoubleStar(p: string) {
    exists i :: 0 <= i < |p| - 1 && p[i] == '*' && p[i + 1] == '*'
  }

  lemma {:induction false} NoSlashPrefix(s: string, k: nat)
    requires k <= |s| && NoSlash(s[..k])
    ensures Slashes(s) == Slashes(s[k..])
  {
    if k > 0 {
      assert s[..k][0] == s[0];
      assert s[1..][..k - 1] == s[..k][1..] && s[1..][k - 1..] == s[k..];
      NoSlashPrefix(s[1..], k - 1);
    } else {
      assert s[0..] == s;
    }
  }

  lemma DoubleStarsOf(p: string)
    requires p != ""
    ensures DoubleStar(p) || HasDoubleStar(p[1..]) ==> HasDoubleStar(p)
  {
    if DoubleStar(p) {
      assert p[0] == '*' && p[0 + 1] == '*';
    }
    if HasDoubleStar(p[1..]) {
      var i :| 0 <= i < |p[1..]| - 1 && p[1..][i] == '*' && p[1..][i + 1] == '*';
      assert p[i + 1] == '*' && p[i + 1 + 1] == '*';
    }
  }

  /** A pattern without '**' only matches paths of its own depth. */
  lemma {:induction false} SingleStarsKeepDepth(p: string, s: string)
    requires Means(p, s) && !HasDoubleStar(p)
    ensures Slashes(p) == Slashes(s)
    decreases |p|
  {
    if p != "" {
      DoubleStarsOf(p);
      if p[0] == '*' {
        NameMeans(p, s);
        var k: nat :| NameAt(p[1..], s, k);
        NoSlashPrefix(s, k);
        SingleStarsKeepDepth(p[1..], s[k..]);
      } else {
        SingleStarsKeepDepth(p[1..], s[1..]);
      }
    }
  }
}
