/** What a sanitized file name is, told by characters: what is kept of the given name, and when
    the name of a Windows device can come out. */
module FileNames {
  import opened Paths

  // ---- What is kept ----

  lemma {:induction false} TrimmedLeft(s: string, drop: char -> bool) returns (lo: nat)
    ensures lo <= |s| && TrimLeft(s, drop) == s[lo..] && forall i :: 0 <= i < lo ==> drop(s[i])
    decreases |s|
  {
    if s == "" || !drop(s[0]) {
      lo := 0;
    } else {
      lo := TrimmedLeft(s[1..], drop);
      lo := lo + 1;
    }
  }

  lemma {:induction false} TrimmedRight(s: string, drop: char -> bool) returns (hi: nat)
    ensures hi <= |s| && TrimRight(s, drop) == s[..hi] && forall i :: hi <= i < |s| ==> drop(s[i])
    decreases |s|
  {
    if s == "" || !drop(s[|s| - 1]) {
      hi := |s|;
    } else {
      hi := TrimmedRight(s[..|s| - 1], drop);
      assert s[..|s| - 1][..hi] == s[..hi];
    }
  }

  /** Trimming cuts characters of the one sort from both ends and no more. */
  lemma TrimmedPart(s: string, drop: char -> bool) returns (lo: nat, hi: nat)
    ensures lo <= hi <= |s| && Trim(s, drop) == s[lo..hi]
    ensures forall i :: 0 <= i < lo || hi <= i < |s| ==> drop(s[i])
    ensures lo < hi ==> !drop(s[lo]) && !drop(s[hi - 1])
  {
    lo := TrimmedLeft(s, drop);
    var n := TrimmedRight(s[lo..], drop);
    hi := lo + n;
    assert s[lo..][..n] == s[lo..hi];
    forall i | hi <= i < |s|
      ensures drop(s[i])
    {
      assert s[lo..][i - lo] == s[i];
    }
  }

  /** The character a name keeps, or the underscore that stands for it. */
  function Kept(ch: char): char {
    if AllowedInNames(ch) then ch else '_'
  }

  /** clean is the part of s from lo to hi, character by character. */
  ghost predicate KeepsPart(s: string, clean: string, lo: nat, hi: nat) {
    lo <= hi <= |s| && |clean| == hi - lo && forall k :: 0 <= k < |clean| ==> clean[k] == Kept(s[lo + k])
  }

  /** Only white space and dots are cut off, no space or dot stays at an end, and other white
      space stays at an end only behind a dot that was cut off. */
  ghost predicate CutsEnds(s: string, lo: nat, hi: nat)
    requires lo <= hi <= |s|
  {
    && (forall i :: 0 <= i < lo || hi <= i < |s| ==> IsSpace(s[i]) || s[i] == '.')
    && (lo < hi ==> s[lo] != ' ' && s[lo] != '.' && s[hi - 1] != ' ' && s[hi - 1] != '.')
    && (lo < hi && IsSpace(s[lo]) ==> exists i :: 0 <= i < lo && s[i] == '.')
    && (lo < hi && IsSpace(s[hi - 1]) ==> exists i :: hi <= i < |s| && s[i] == '.')
  }

  lemma CleanedIsPart(s: string) returns (lo: nat, hi: nat)
    ensures KeepsPart(s, Cleaned(s), lo, hi) && CutsEnds(s, lo, hi)
  {
    hide Trim, Replaced, IsSpace, Forbidden;
    var a, b := TrimmedPart(s, IsSpace);
    var replaced := Replaced(s[a..b]);
    var c, d := TrimmedPart(replaced, SpaceOrDot);
    lo, hi := a + c, a + d;
    forall k | 0 <= k < |replaced|
      ensures replaced[k] == Kept(s[a + k]) && (SpaceOrDot(replaced[k]) <==> SpaceOrDot(s[a + k]))
    {
      KeptCharacter(s[a + k]);
      assert s[a..b][k] == s[a + k];
    }
    assert Cleaned(s) == replaced[c..d];
    forall k | 0 <= k < d - c
      ensures Cleaned(s)[k] == Kept(s[lo + k])
    {
      assert replaced[c..d][k] == replaced[c + k];
    }
    assert IsSpace(' ') by {
      BlankIsSpace();
    }
    CutParts(s, a, b, c, d, replaced);
  }

  lemma BlankIsSpace()
    ensures IsSpace(' ')
  {
  }

  lemma KeptCharacter(ch: char)
    ensures Kept(ch) == (if Forbidden(ch) then '_' else ch) && (SpaceOrDot(Kept(ch)) <==> SpaceOrDot(ch))
  {
  }

  lemma CutParts(s: string, a: nat, b: nat, c: nat, d: nat, replaced: string)
    requires a <= b <= |s| && c <= d <= b - a && |replaced| == b - a && IsSpace(' ')
    requires forall i :: 0 <= i < a || b <= i < |s| ==> IsSpace(s[i])
    requires a < b ==> !IsSpace(s[a]) && !IsSpace(s[b - 1])
    requires forall k :: 0 <= k < b - a ==> (SpaceOrDot(replaced[k]) <==> SpaceOrDot(s[a + k]))
    requires forall k :: 0 <= k < c || d <= k < b - a ==> SpaceOrDot(replaced[k])
    requires c < d ==> !SpaceOrDot(replaced[c]) && !SpaceOrDot(replaced[d - 1])
    ensures CutsEnds(s, a + c, a + d)
  {
    hide IsSpace;
    var lo, hi := a + c, a + d;
    forall i | 0 <= i < lo || hi <= i < |s|
      ensures IsSpace(s[i]) || s[i] == '.'
    {
      if a <= i < b {
        assert SpaceOrDot(replaced[i - a]);
        assert s[a + (i - a)] == s[i];
      }
    }
    if lo < hi && IsSpace(s[lo]) {
      assert SpaceOrDot(replaced[0]) && s[a + 0] == '.';
    }
    if lo < hi && IsSpace(s[hi - 1]) {
      assert SpaceOrDot(replaced[b - a - 1]) && s[a + (b - a - 1)] == '.';
    }
  }

  // ---- Windows devices ----

  /** The word, in capitals, but for letter case. */
  predicate IsWord(s: string, word: string) {
    |s| == |word| && forall i :: 0 <= i < |s| ==>
      s[i] == word[i] || ('A' <= word[i] <= 'Z' && s[i] as int == word[i] as int + 32)
  }

  predicate IsDevice(s: string) {
    || IsWord(s, "CON") || IsWord(s, "PRN") || IsWord(s, "AUX") || IsWord(s, "NUL")
    || (|s| == 4 && '1' <= s[3] <= '9' && (IsWord(s[..3], "COM") || IsWord(s[..3], "LPT")))
  }

  /** s is the base and perhaps a last dot and what follows it. */
  ghost predicate HasBase(s: string, k: nat) {
    k <= |s| && (if k == |s| then '.' !in s else s[k] == '.' && '.' !in s[k + 1..])
  }

  /** The name but for its extension is that of a device. */
  ghost predicate NamesDevice(s: string) {
    exists k: nat :: HasBase(s, k) && IsDevice(s[..k])
  }

  lemma {:induction false} StemIsBase(s: string)
    ensures HasBase(s, |Stem(s)|) && Stem(s) == s[..|Stem(s)|]
    decreases |s|
  {
    if '.' in s && s[|s| - 1] != '.' {
      var t := s[..|s| - 1];
      assert s == t + [s[|s| - 1]];
      StemIsBase(t);
      var k := |Stem(t)|;
      assert s[k + 1..] == t[k + 1..] + [s[|s| - 1]];
      assert t[..k] == s[..k];
    }
  }

  lemma OneBase(s: string, j: nat, k: nat)
    requires HasBase(s, j) && HasBase(s, k)
    ensures j == k
  {
    if j < k {
      BaseIsLast(s, j, k);
    } else if k < j {
      BaseIsLast(s, k, j);
    }
  }

  lemma BaseIsLast(s: string, j: nat, k: nat)
    requires HasBase(s, j) && j < k <= |s|
    ensures !HasBase(s, k)
  {
    if k < |s| {
      assert s[j + 1..][k - j - 1] == s[k];
    }
  }

  predicate Capital(word: string) {
    forall i :: 0 <= i < |word| ==> 'A' <= word[i] <= 'Z' || '0' <= word[i] <= '9'
  }

  lemma {:induction false} UpperIsWord(s: string, word: string)
    requires Capital(word)
    ensures UpperAll(s) == word <==> IsWord(s, word)
    decreases |s|
  {
    if |s| == |word| > 0 {
      UpperIsWord(s[1..], word[1..]);
      assert word == [word[0]] + word[1..];
      assert IsWord(s, word) <==> IsWord(s[..1], word[..1]) && IsWord(s[1..], word[1..]) by {
        WordSplits(s, word);
      }
    }
  }

  lemma WordSplits(s: string, word: string)
    requires |s| == |word| > 0
    ensures IsWord(s, word) <==> IsWord(s[..1], word[..1]) && IsWord(s[1..], word[1..])
  {
    if IsWord(s[..1], word[..1]) && IsWord(s[1..], word[1..]) {
      forall i | 0 <= i < |s|
        ensures s[i] == word[i] || ('A' <= word[i] <= 'Z' && s[i] as int == word[i] as int + 32)
      {
        if i > 0 {
          assert s[1..][i - 1] == s[i] && word[1..][i - 1] == word[i];
        }
      }
    }
  }

  lemma NumberedWord(s: string, word: string, digit: char)
    requires |word| == 3 && Capital(word) && '1' <= digit <= '9'
    ensures UpperAll(s) == word + [digit] <==> |s| == 4 && s[3] == digit && IsWord(s[..3], word)
  {
    var w := word + [digit];
    assert w[3] == digit && forall i :: 0 <= i < 3 ==> w[i] == word[i];
    UpperIsWord(s, w);
    if |s| == 4 {
      NumberedLetters(s, word, w);
    }
  }

  lemma NumberedLetters(s: string, word: string, w: string)
    requires |s| == |w| == 4 && |word| == 3 && (forall i :: 0 <= i < 3 ==> w[i] == word[i]) && '1' <= w[3] <= '9'
    ensures IsWord(s, w) <==> s[3] == w[3] && IsWord(s[..3], word)
  {
    forall i | 0 <= i < 3
      ensures s[..3][i] == s[i] && word[i] == w[i]
    {
    }
  }

  lemma DevicesAreListed(s: string)
    ensures UpperAll(s) in Devices() <==> IsDevice(s)
  {
    UpperIsWord(s, "CON");
    UpperIsWord(s, "PRN");
    UpperIsWord(s, "AUX");
    UpperIsWord(s, "NUL");
    forall digit: char | '1' <= digit <= '9'
      ensures UpperAll(s) == "COM" + [digit] <==> |s| == 4 && s[3] == digit && IsWord(s[..3], "COM")
      ensures UpperAll(s) == "LPT" + [digit] <==> |s| == 4 && s[3] == digit && IsWord(s[..3], "LPT")
    {
      NumberedWord(s, "COM", digit);
      NumberedWord(s, "LPT", digit);
    }
    hide UpperAll, IsWord, Devices;
    ListedDevices(UpperAll(s));
    if |s| == 4 && '1' <= s[3] <= '9' {
      var digit := s[3];
      assert UpperAll(s) == "COM" + [digit] <==> IsWord(s[..3], "COM");
      assert UpperAll(s) == "LPT" + [digit] <==> IsWord(s[..3], "LPT");
    }
  }

  lemma ListedDevices(u: string)
    ensures u in Devices() <==>
      u in {"CON", "PRN", "AUX", "NUL"} || exists digit: char :: '1' <= digit <= '9' && (u == "COM" + [digit] || u == "LPT" + [digit])
  {
    assert "COM1" == "COM" + ['1'] && "COM2" == "COM" + ['2'] && "COM3" == "COM" + ['3'] && "COM4" == "COM" + ['4']
      && "COM5" == "COM" + ['5'] && "COM6" == "COM" + ['6'] && "COM7" == "COM" + ['7'] && "COM8" == "COM" + ['8'] && "COM9" == "COM" + ['9'];
    assert "LPT1" == "LPT" + ['1'] && "LPT2" == "LPT" + ['2'] && "LPT3" == "LPT" + ['3'] && "LPT4" == "LPT" + ['4']
      && "LPT5" == "LPT" + ['5'] && "LPT6" == "LPT" + ['6'] && "LPT7" == "LPT" + ['7'] && "LPT8" == "LPT" + ['8'] && "LPT9" == "LPT" + ['9'];
  }

  lemma FreedName(s: string)
    ensures FreeOfDevices(s) == if NamesDevice(s) then "_" + s else s
  {
    StemIsBase(s);
    DevicesAreListed(Stem(s));
    hide UpperAll, Devices, IsDevice, Stem;
    forall k: nat | HasBase(s, k)
      ensures k == |Stem(s)|
    {
      OneBase(s, k, |Stem(s)|);
    }
  }

  /** Behind an underscore there is no device. */
  lemma UnderscoreIsNoDevice(s: string)
    requires s != "" && s[0] == '_'
    ensures !NamesDevice(s)
  {
    forall k: nat | HasBase(s, k)
      ensures !IsDevice(s[..k])
    {
      assert k > 0 ==> s[..k][0] == '_';
      assert |s[..k]| == 4 ==> s[..k][..3][0] == '_';
    }
  }

  /** sanitizeComponent: the kept part of the name, an underscore for an empty one, one more in
      front of a device, and at most 180 characters of that. */
  lemma SanitizedName(s: string) returns (lo: nat, hi: nat, clean: string)
    ensures KeepsPart(s, clean, lo, hi) && CutsEnds(s, lo, hi)
    ensures var name := if clean == "" then "_" else clean;
            var free := if NamesDevice(name) then "_" + name else name;
            Sanitize(s) == if |free| <= 180 then free else free[..180]
  {
    lo, hi := CleanedIsPart(s);
    clean := Cleaned(s);
    FreedName(if clean == "" then "_" else clean);
    hide KeepsPart, CutsEnds, Cleaned, NamesDevice;
  }

  /** A sanitized name is that of a device exactly if the cut at 180 characters took the dot
      that kept the cleaned name from being one. */
  lemma DeviceComesOutIff(s: string)
    ensures var clean := Cleaned(s);
            NamesDevice(Sanitize(s)) <==> |clean| > 180 && !NamesDevice(clean) && NamesDevice(clean[..180])
  {
    var lo, hi, clean := SanitizedName(s);
    FreedName(if Cleaned(s) == "" then "_" else Cleaned(s));
    var name := if Cleaned(s) == "" then "_" else Cleaned(s);
    hide Cleaned, NamesDevice;
    UnderscoreIsNoDevice("_");
    UnderscoreIsNoDevice("_" + name);
    if |"_" + name| > 180 {
      UnderscoreIsNoDevice(("_" + name)[..180]);
    }
  }

  /** A name of 182 characters that is no device, and comes out as one. */
  lemma LongNameBecomesDevice() returns (s: string)
    ensures |s| == 182 && !NamesDevice(s) && NamesDevice(Sanitize(s))
  {
    var fill := seq(176, i => 'a');
    var cut := "CON." + fill;
    s := cut + ".b";
    assert forall i :: 4 <= i < 180 ==> cut[i] == fill[i - 4];
    assert s[..180] == cut;
    LongNameIsKept(cut, s);
    LongBases(cut, s);
    hide NamesDevice, Cleaned, Sanitize;
    DeviceComesOutIff(s);
  }

  predicate PlainLetter(ch: char) {
    ch == 'C' || ch == 'O' || ch == 'N' || ch == 'a' || ch == 'b'
  }

  lemma LongNameIsKept(cut: string, s: string)
    requires |cut| == 180 && cut[..4] == "CON." && (forall i :: 4 <= i < 180 ==> cut[i] == 'a') && s == cut + ".b"
    ensures Cleaned(s) == s
  {
    forall i | 0 <= i < 182
      ensures PlainLetter(s[i]) || s[i] == '.'
    {
      assert i < 4 ==> s[i] == cut[..4][i];
    }
    assert s[0] == cut[..4][0] == 'C';
    PlainNameIsKept(s);
  }

  lemma LongBases(cut: string, s: string)
    requires |cut| == 180 && cut[..4] == "CON." && (forall i :: 4 <= i < 180 ==> cut[i] == 'a') && s == cut + ".b"
    ensures NamesDevice(cut) && !NamesDevice(s)
  {
    assert cut[3] == cut[..4][3] && cut[..3] == cut[..4][..3] == "CON";
    assert HasBase(cut, 3);
    assert s[181..] == "b";
    assert HasBase(s, 180);
    forall k: nat | HasBase(s, k)
      ensures !IsDevice(s[..k])
    {
      OneBase(s, 180, k);
    }
  }

  lemma PlainNameIsKept(s: string)
    requires s != "" && PlainLetter(s[0]) && PlainLetter(s[|s| - 1]) && forall i :: 0 <= i < |s| ==> PlainLetter(s[i]) || s[i] == '.'
    ensures Cleaned(s) == s
  {
    forall i | 0 <= i < |s|
      ensures !Forbidden(s[i]) && (PlainLetter(s[i]) ==> !IsSpace(s[i]) && !SpaceOrDot(s[i]))
    {
      PlainCharacter(s[i]);
    }
    hide PlainLetter, Forbidden, IsSpace, SpaceOrDot, Cleaned, Trim, Replaced;
    NothingTrimmed(s, IsSpace);
    NothingReplaced(s);
    NothingTrimmed(s, SpaceOrDot);
    CleanedIsKept(s);
  }

  lemma PlainCharacter(ch: char)
    requires PlainLetter(ch) || ch == '.'
    ensures !Forbidden(ch) && (PlainLetter(ch) ==> !IsSpace(ch) && !SpaceOrDot(ch))
  {
  }
}
