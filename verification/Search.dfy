/** Literal byte search in chunks, against search over whole objects. Bytes are characters. */
module Search {
  import opened Common
  import opened Order

  const CHUNK := 65536
  const WINDOW := 1048576

  function Max(a: int, b: int): int {
    if a < b then b else a
  }

  function Min(a: int, b: int): int {
    if a < b then a else b
  }

  // ---- Occurrences ----

  predicate Occurs(data: string, literal: string, i: int) {
    0 <= i && i + |literal| <= |data| && data[i..i + |literal|] == literal
  }

  /** The positions in [lo, hi) where the literal occurs, in order. */
  function OccsIn(data: string, literal: string, lo: int, hi: int): (s: seq<int>)
    ensures forall x :: x in s <==> lo <= x < hi && Occurs(data, literal, x)
    ensures forall i, j :: 0 <= i < j < |s| ==> s[i] < s[j]
    decreases hi - lo
  {
    if lo >= hi then []
    else
      var rest := OccsIn(data, literal, lo + 1, hi);
      assert forall j :: 0 <= j < |rest| ==> rest[j] in rest;
      if Occurs(data, literal, lo) then [lo] + rest else rest
  }

  lemma {:induction false} OccsSplit(data: string, literal: string, a: int, b: int, c: int)
    requires a <= b <= c
    ensures OccsIn(data, literal, a, c) == OccsIn(data, literal, a, b) + OccsIn(data, literal, b, c)
    decreases b - a
  {
    hide Occurs;
    if a < b {
      OccsSplit(data, literal, a + 1, b, c);
    }
  }

  function Shifted(s: seq<int>, delta: int): seq<int> {
    seq(|s|, i requires 0 <= i < |s| => s[i] + delta)
  }

  /** Occurrences in a slice are the occurrences of the whole that lie inside it. */
  lemma {:induction false} OccsInSlice(data: string, literal: string, from: nat, to: nat, lo: int, hi: int)
    requires from <= to <= |data| && 0 <= lo && hi + |literal| <= to - from + 1
    ensures Shifted(OccsIn(data[from..to], literal, lo, hi), from) == OccsIn(data, literal, from + lo, from + hi)
    decreases hi - lo
  {
    hide Occurs;
    if lo < hi {
      OccsInSlice(data, literal, from, to, lo + 1, hi);
      OccursInSlice(data, literal, from, to, lo);
      var tail := OccsIn(data[from..to], literal, lo + 1, hi);
      assert Shifted([lo] + tail, from) == [from + lo] + Shifted(tail, from);
    }
  }

  lemma OccursInSlice(data: string, literal: string, from: nat, to: nat, x: int)
    requires from <= to <= |data| && 0 <= x && x + |literal| <= to - from
    ensures Occurs(data[from..to], literal, x) <==> Occurs(data, literal, from + x)
  {
    var slice, n := data[from..to], |literal|;
    var u, v := slice[x..x + n], data[from + x..from + x + n];
    assert |u| == |v| && forall k :: 0 <= k < n ==> u[k] == slice[x + k] == data[from + x + k] == v[k];
    assert u == v;
  }

  /** No proper prefix of the literal is also its suffix. */
  predicate Unbordered(literal: string) {
    forall k :: 0 < k < |literal| ==> literal[k..] != literal[..|literal| - k]
  }

  /** Occurrences of such a literal never overlap. */
  lemma OccurrencesAreApart(data: string, literal: string, i: int, j: int)
    requires Unbordered(literal) && Occurs(data, literal, i) && Occurs(data, literal, j) && i < j
    ensures j - i >= |literal|
  {
    if j - i < |literal| {
      OverlapMakesBorder(data, literal, i, j);
    }
  }

  lemma OverlapMakesBorder(data: string, literal: string, i: int, j: int)
    requires Occurs(data, literal, i) && Occurs(data, literal, j) && i < j < i + |literal|
    ensures literal[j - i..] == literal[..|literal| - (j - i)]
  {
    assert data[j..i + |literal|] == data[i..i + |literal|][j - i..];
    assert data[j..i + |literal|] == data[j..j + |literal|][..|literal| - (j - i)];
  }

  // ---- One buffer ----

  /** bytes.Index from an offset on: the first occurrence, or -1. */
  method Index(buf: string, literal: string, off: nat) returns (i: int)
    requires literal != ""
    ensures i == -1 || (off <= i && Occurs(buf, literal, i))
    ensures forall x :: off <= x < (if i == -1 then |buf| else i) ==> !Occurs(buf, literal, x)
  {
    i := off;
    while i + |literal| <= |buf|
      invariant off <= i
      invariant forall x :: off <= x < i ==> !Occurs(buf, literal, x)
    {
      if buf[i..i + |literal|] == literal {
        return;
      }
      i := i + 1;
    }
    i := -1;
  }

  /** Occurrences that do not overlap, in order. */
  ghost predicate Disjoint(buf: string, literal: string, s: seq<int>) {
    && (forall i :: 0 <= i < |s| ==> Occurs(buf, literal, s[i]))
    && (forall i, j :: 0 <= i < j < |s| ==> s[i] + |literal| <= s[j])
  }

  /** The match loop: successive searches, each after the end of the last match. */
  method FindAll(buf: string, literal: string, limit: nat) returns (starts: seq<int>)
    requires literal != ""
    ensures Disjoint(buf, literal, starts) && |starts| <= limit
    ensures Unbordered(literal) ==> starts == Take(OccsIn(buf, literal, 0, |buf|), limit)
  {
    hide Occurs, OccsIn, Unbordered;
    starts := [];
    var off := 0;
    NoOccs(buf, literal, 0, 0);
    while |starts| < limit
      invariant 0 <= off <= |buf| && |starts| <= limit && Disjoint(buf, literal, starts)
      invariant forall x :: x in starts ==> x + |literal| <= off
      invariant Unbordered(literal) ==> starts == OccsIn(buf, literal, 0, off)
    {
      var i := Index(buf, literal, off);
      if i < 0 {
        NoOccs(buf, literal, off, |buf|);
        OccsSplit(buf, literal, 0, off, |buf|);
        return;
      }
      if Unbordered(literal) {
        ScanOne(buf, literal, off, i);
      }
      OccurrenceFits(buf, literal, i);
      DisjointAppend(buf, literal, starts, i);
      starts := starts + [i];
      off := i + |literal|;
    }
    OccsSplit(buf, literal, 0, off, |buf|);
  }

  lemma OccurrenceFits(buf: string, literal: string, i: int)
    requires Occurs(buf, literal, i)
    ensures 0 <= i <= i + |literal| <= |buf|
  {
  }

  lemma DisjointAppend(buf: string, literal: string, s: seq<int>, i: int)
    requires Disjoint(buf, literal, s) && Occurs(buf, literal, i) && forall x :: x in s ==> x + |literal| <= i
    ensures Disjoint(buf, literal, s + [i])
  {
    hide Occurs;
    assert forall j :: 0 <= j < |s| ==> s[j] in s;
  }

  lemma {:induction false} NoOccs(data: string, literal: string, lo: int, hi: int)
    requires forall x :: lo <= x < hi ==> !Occurs(data, literal, x)
    ensures OccsIn(data, literal, lo, hi) == []
    decreases hi - lo
  {
    hide Occurs;
    if lo < hi {
      NoOccs(data, literal, lo + 1, hi);
    }
  }

  lemma ScanOne(buf: string, literal: string, off: nat, i: int)
    requires literal != "" && Unbordered(literal) && off <= i && Occurs(buf, literal, i)
    requires forall x :: off <= x < i ==> !Occurs(buf, literal, x)
    ensures OccsIn(buf, literal, 0, i + |literal|) == OccsIn(buf, literal, 0, off) + [i]
  {
    hide Occurs, OccsIn, Unbordered;
    OnlyOcc(buf, literal, i);
    OccsSplit(buf, literal, 0, off, i + |literal|);
    OccsSplit(buf, literal, off, i, i + |literal|);
    NoOccs(buf, literal, off, i);
  }

  lemma OnlyOcc(buf: string, literal: string, i: int)
    requires literal != "" && Unbordered(literal) && Occurs(buf, literal, i)
    ensures OccsIn(buf, literal, i, i + |literal|) == [i]
  {
    hide Occurs, Unbordered;
    forall x | i < x < i + |literal|
      ensures !Occurs(buf, literal, x)
    {
      if Occurs(buf, literal, x) {
        OccurrencesAreApart(buf, literal, i, x);
      }
    }
    NoOccs(buf, literal, i + 1, i + |literal|);
  }

  function Take<T>(s: seq<T>, n: int): seq<T> {
    if n <= 0 then [] else if n < |s| then s[..n] else s
  }

  // ---- Chunks ----

  datatype Hit = Hit(obj: Id, offset: int, length: int, context: string)

  /** The hit at an offset, with the bytes of the whole object around it. */
  function HitAt(id: Id, data: string, literal: string, context: nat, offset: int): Hit
    requires Occurs(data, literal, offset)
  {
    Hit(id, offset, |literal|, data[Max(0, offset - context)..Min(|data|, offset + |literal| + context)])
  }

  ghost predicate AllOccur(data: string, literal: string, offsets: seq<int>) {
    forall i :: 0 <= i < |offsets| ==> Occurs(data, literal, offsets[i])
  }

  function HitsAt(id: Id, data: string, literal: string, context: nat, offsets: seq<int>): (s: seq<Hit>)
    requires AllOccur(data, literal, offsets)
    ensures |s| == |offsets|
  {
    seq(|offsets|, i requires 0 <= i < |offsets| => HitAt(id, data, literal, context, offsets[i]))
  }

  function HitsIn(id: Id, data: string, literal: string, context: nat, lo: int, hi: int): seq<Hit> {
    var offsets := OccsIn(data, literal, lo, hi);
    assert forall i :: 0 <= i < |offsets| ==> offsets[i] in offsets;
    HitsAt(id, data, literal, context, offsets)
  }

  /** What a chunk contributes: pre counts the occurrences in the context before it, which the
      buffer also holds; hits are its own. */
  datatype Chunk = Chunk(pre: nat, hits: seq<Hit>)

  function ChunkAt(id: Id, data: string, literal: string, context: nat, base: nat): Chunk {
    Chunk(|OccsIn(data, literal, Max(0, base - context), base)|, HitsIn(id, data, literal, context, base, base + CHUNK))
  }

  function ChunksFrom(id: Id, data: string, literal: string, context: nat, base: nat): seq<Chunk>
    decreases |data| - base
  {
    if base >= |data| then []
    else [ChunkAt(id, data, literal, context, base)] + ChunksFrom(id, data, literal, context, base + CHUNK)
  }

  /** The cap counts matches of the leading context too. */
  function AddChunk(found: seq<Hit>, c: Chunk, limit: nat): seq<Hit> {
    if |found| >= limit then found else found + Take(c.hits, limit - |found| - c.pre)
  }

  function AddChunks(found: seq<Hit>, cs: seq<Chunk>, limit: nat): seq<Hit>
    decreases |cs|
  {
    if cs == [] then found else AddChunks(AddChunk(found, cs[0], limit), cs[1..], limit)
  }

  // ---- The search loops ----

  /** What holds of every search, whatever the literal. */
  ghost predicate Sound(id: Id, data: string, literal: string, context: nat, hits: seq<Hit>) {
    && (forall h :: h in hits ==> h.obj == id && Occurs(data, literal, h.offset) && h == HitAt(id, data, literal, context, h.offset))
    && (forall i, j :: 0 <= i < j < |hits| ==> hits[i].offset < hits[j].offset)
  }

  /** The offsets that start in the chunk at base. */
  function InChunk(s: seq<int>, base: int): seq<int> {
    if s == [] then []
    else
      var last := s[|s| - 1];
      InChunk(s[..|s| - 1], base) + if base <= last < base + CHUNK then [last] else []
  }

  lemma {:induction false} InChunkAppend(s: seq<int>, t: seq<int>, base: int)
    ensures InChunk(s + t, base) == InChunk(s, base) + InChunk(t, base)
    decreases |t|
  {
    if t == [] {
      assert s + t == s;
    } else {
      assert (s + t)[..|s + t| - 1] == s + t[..|t| - 1];
      InChunkAppend(s, t[..|t| - 1], base);
    }
  }

  ghost predicate Within(s: seq<int>, lo: int, hi: int) {
    forall i :: 0 <= i < |s| ==> lo <= s[i] < hi
  }

  lemma {:induction false} AllInChunk(s: seq<int>, base: int)
    requires Within(s, base, base + CHUNK)
    ensures InChunk(s, base) == s
    decreases |s|
  {
    if s != [] {
      AllInChunk(s[..|s| - 1], base);
    }
  }

  lemma {:induction false} NoneInChunk(s: seq<int>, base: int)
    requires forall i :: 0 <= i < |s| ==> s[i] < base || base + CHUNK <= s[i]
    ensures InChunk(s, base) == []
    decreases |s|
  {
    if s != [] {
      NoneInChunk(s[..|s| - 1], base);
    }
  }

  /** Capping the matches of the whole window and then dropping those outside the chunk. */
  lemma CapThenFilter(pre: seq<int>, own: seq<int>, post: seq<int>, base: int, room: nat)
    requires forall i :: 0 <= i < |pre| ==> pre[i] < base
    requires Within(own, base, base + CHUNK)
    requires forall i :: 0 <= i < |post| ==> base + CHUNK <= post[i]
    ensures InChunk(Take(pre + own + post, room), base) == Take(own, room - |pre|)
  {
    hide InChunk;
    var all := pre + own + post;
    if room <= |pre| {
      assert Take(all, room) == pre[..room];
      NoneInChunk(pre[..room], base);
    } else if room <= |pre| + |own| {
      CapInsideOwn(pre, own, post, base, room);
    } else {
      var rest := Take(post, room - |pre| - |own|);
      assert Take(all, room) == pre + (own + rest);
      NoneInChunk(pre, base);
      AllInChunk(own, base);
      NoneInChunk(rest, base);
      InChunkAppend(own, rest, base);
      InChunkAppend(pre, own + rest, base);
    }
  }

  lemma CapInsideOwn(pre: seq<int>, own: seq<int>, post: seq<int>, base: int, room: nat)
    requires forall i :: 0 <= i < |pre| ==> pre[i] < base
    requires Within(own, base, base + CHUNK) && |pre| < room <= |pre| + |own|
    ensures InChunk(Take(pre + own + post, room), base) == Take(own, room - |pre|)
  {
    hide InChunk;
    var part := own[..room - |pre|];
    assert Take(pre + own + post, room) == pre + part;
    NoneInChunk(pre, base);
    AllInChunk(part, base);
    InChunkAppend(pre, part, base);
    assert Take(own, room - |pre|) == part;
  }

  /** A match of the window that starts in the chunk carries the object's own bytes around it. */
  lemma WindowHit(id: Id, data: string, literal: string, context: nat, base: nat, start: nat, end: nat, m: int)
    requires base < |data| && start == base - Min(context, base)
    requires end == Min(|data|, base + CHUNK + (|literal| - 1) + context) && literal != ""
    requires start <= end && Occurs(data[start..end], literal, m) && base <= start + m < base + CHUNK
    ensures Occurs(data, literal, start + m)
    ensures var lo, hi := Max(0, m - context), Min(end - start, m + |literal| + context);
            lo <= hi && HitAt(id, data, literal, context, start + m) == Hit(id, start + m, |literal|, data[start..end][lo..hi])
  {
    OccursInSlice(data, literal, start, end, m);
    var lo, hi := Max(0, m - context), Min(end - start, m + |literal| + context);
    var from, to := Max(0, start + m - context), Min(|data|, start + m + |literal| + context);
    assert from == start + lo && to == start + hi;
    SliceOfSlice(data, start, end, lo, hi);
  }

  lemma SliceOfSlice(data: string, start: nat, end: nat, lo: nat, hi: nat)
    requires start <= end <= |data| && lo <= hi <= end - start
    ensures data[start..end][lo..hi] == data[start + lo..start + hi]
  {
    var u, v := data[start..end][lo..hi], data[start + lo..start + hi];
    assert |u| == |v| && forall k :: 0 <= k < |u| ==> u[k] == v[k];
  }

  /** The matches of the window, as offsets in the object, are those of the leading context,
      of the chunk and of what follows it. */
  lemma WindowMatches(data: string, literal: string, context: nat, base: nat, start: nat, end: nat)
    requires base < |data| && start == base - Min(context, base) && literal != ""
    requires end == Min(|data|, base + CHUNK + (|literal| - 1) + context)
    ensures start <= end
    ensures var top := Max(base + CHUNK, end - |literal| + 1);
            Shifted(OccsIn(data[start..end], literal, 0, end - start), start)
            == OccsIn(data, literal, start, base) + OccsIn(data, literal, base, base + CHUNK) + OccsIn(data, literal, base + CHUNK, top)
  {
    hide OccsIn, Occurs;
    var buf, top, last := data[start..end], Max(base + CHUNK, end - |literal| + 1), Max(0, end - start - |literal| + 1);
    NoRoom(buf, literal, last);
    OccsSplit(buf, literal, 0, last, end - start);
    if last > 0 {
      OccsInSlice(data, literal, start, end, 0, last);
    } else {
      NoOccs(buf, literal, 0, 0);
      NoOccs(data, literal, start, start);
    }
    assert Shifted(OccsIn(buf, literal, 0, end - start), start) == OccsIn(data, literal, start, start + last);
    if start + last < top {
      assert end == |data|;
      NoRoomAfter(data, literal, start + last, top);
    }
    OccsSplit(data, literal, start, start + last, Max(top, start + last));
    OccsSplit(data, literal, start, base, base + CHUNK);
    OccsSplit(data, literal, start, base + CHUNK, top);
  }

  lemma NoRoom(buf: string, literal: string, last: nat)
    requires literal != "" && last == Max(0, |buf| - |literal| + 1)
    ensures OccsIn(buf, literal, last, |buf|) == []
  {
    NoOccs(buf, literal, last, |buf|);
  }

  lemma NoRoomAfter(data: string, literal: string, lo: nat, hi: int)
    requires lo + |literal| > |data|
    ensures OccsIn(data, literal, lo, hi) == []
  {
    NoOccs(data, literal, lo, hi);
  }

  lemma HitsAppend(id: Id, data: string, literal: string, context: nat, offsets: seq<int>, x: int)
    requires AllOccur(data, literal, offsets) && Occurs(data, literal, x)
    ensures AllOccur(data, literal, offsets + [x])
    ensures HitsAt(id, data, literal, context, offsets + [x])
            == HitsAt(id, data, literal, context, offsets) + [HitAt(id, data, literal, context, x)]
  {
    hide Occurs, HitAt;
  }

  lemma TakeHits(id: Id, data: string, literal: string, context: nat, offsets: seq<int>, n: int)
    requires AllOccur(data, literal, offsets)
    ensures AllOccur(data, literal, Take(offsets, n))
    ensures HitsAt(id, data, literal, context, Take(offsets, n)) == Take(HitsAt(id, data, literal, context, offsets), n)
  {
    hide Occurs, HitAt;
  }

  lemma TakeShifted(s: seq<int>, n: int, delta: int)
    ensures Shifted(Take(s, n), delta) == Take(Shifted(s, delta), n)
  {
  }

  lemma OccsInRange(data: string, literal: string, lo: int, hi: int)
    ensures Within(OccsIn(data, literal, lo, hi), lo, hi)
  {
    var s := OccsIn(data, literal, lo, hi);
    assert forall i :: 0 <= i < |s| ==> s[i] in s;
  }

  /** What remains of the capped matches of a window is the capped share of the chunk. */
  lemma WindowShare(data: string, literal: string, context: nat, base: nat, start: nat, end: nat, room: nat)
    requires base < |data| && start == base - Min(context, base) && literal != ""
    requires end == Min(|data|, base + CHUNK + (|literal| - 1) + context) && start <= end
    ensures InChunk(Shifted(Take(OccsIn(data[start..end], literal, 0, end - start), room), start), base)
            == Take(OccsIn(data, literal, base, base + CHUNK), room - |OccsIn(data, literal, start, base)|)
  {
    hide OccsIn, Occurs, InChunk, Shifted;
    var top := Max(base + CHUNK, end - |literal| + 1);
    WindowMatches(data, literal, context, base, start, end);
    TakeShifted(OccsIn(data[start..end], literal, 0, end - start), room, start);
    OccsInRange(data, literal, start, base);
    OccsInRange(data, literal, base, base + CHUNK);
    OccsInRange(data, literal, base + CHUNK, top);
    CapThenFilter(OccsIn(data, literal, start, base), OccsIn(data, literal, base, base + CHUNK),
                  OccsIn(data, literal, base + CHUNK, top), base, room);
  }

  lemma OffsetsAreSound(id: Id, data: string, literal: string, context: nat, offsets: seq<int>)
    requires AllOccur(data, literal, offsets) && forall k, j :: 0 <= k < j < |offsets| ==> offsets[k] < offsets[j]
    ensures Sound(id, data, literal, context, HitsAt(id, data, literal, context, offsets))
  {
    hide Occurs;
    var hits := HitsAt(id, data, literal, context, offsets);
    assert forall i :: 0 <= i < |hits| ==> hits[i] == HitAt(id, data, literal, context, offsets[i]);
  }

  /** One chunk: read a window, find all matches in it, keep those that start in the chunk. */
  method SearchChunk(id: Id, data: string, literal: string, context: nat, base: nat, room: nat) returns (hits: seq<Hit>)
    requires literal != "" && base < |data| && room > 0
    ensures |hits| <= room && Sound(id, data, literal, context, hits)
    ensures forall i :: 0 <= i < |hits| ==> base <= hits[i].offset < base + CHUNK
    ensures Unbordered(literal) ==> hits == Take(ChunkAt(id, data, literal, context, base).hits,
                                                 room - ChunkAt(id, data, literal, context, base).pre)
  {
    hide Occurs, Unbordered, OccsIn, Sound, InChunk;
    var start := base - Min(context, base);
    var end := Min(|data|, base + CHUNK + (|literal| - 1) + context);
    var buf := data[start..end];
    var matches := FindAll(buf, literal, room);
    ghost var offsets: seq<int>;
    hits, offsets := CollectMatches(id, data, literal, context, base, start, end, matches);
    OffsetsAreSound(id, data, literal, context, offsets);
    if Unbordered(literal) {
      WindowShare(data, literal, context, base, start, end, room);
      var own := OccsIn(data, literal, base, base + CHUNK);
      OwnOccur(data, literal, own, base);
      TakeHits(id, data, literal, context, own, room - |OccsIn(data, literal, start, base)|);
      assert start == Max(0, base - context);
    }
  }

  lemma OwnOccur(data: string, literal: string, own: seq<int>, base: int)
    requires own == OccsIn(data, literal, base, base + CHUNK)
    ensures AllOccur(data, literal, own)
  {
    assert forall i :: 0 <= i < |own| ==> own[i] in own;
  }

  lemma NothingCollected(id: Id, data: string, literal: string, context: nat, base: int, start: int, matches: seq<int>)
    ensures AllOccur(data, literal, []) && HitsAt(id, data, literal, context, []) == []
    ensures InChunk(Shifted(matches[..0], start), base) == []
  {
  }

  lemma OneMoreMatch(matches: seq<int>, i: nat, start: int, base: int)
    requires i < |matches|
    ensures var x := start + matches[i];
            InChunk(Shifted(matches[..i + 1], start), base)
            == InChunk(Shifted(matches[..i], start), base) + if base <= x < base + CHUNK then [x] else []
  {
    var s := Shifted(matches[..i + 1], start);
    assert s[..i] == Shifted(matches[..i], start);
  }

  method CollectMatches(id: Id, data: string, literal: string, context: nat, base: nat, start: nat, end: nat, matches: seq<int>)
      returns (hits: seq<Hit>, ghost offsets: seq<int>)
    requires base < |data| && start == base - Min(context, base) && literal != ""
    requires end == Min(|data|, base + CHUNK + (|literal| - 1) + context) && start <= end
    requires Disjoint(data[start..end], literal, matches)
    ensures AllOccur(data, literal, offsets) && hits == HitsAt(id, data, literal, context, offsets) && |hits| <= |matches|
    ensures offsets == InChunk(Shifted(matches, start), base) && Within(offsets, base, base + CHUNK)
    ensures forall k, j :: 0 <= k < j < |offsets| ==> offsets[k] < offsets[j]
  {
    hide Occurs, HitAt, HitsAt, InChunk, AllOccur;
    var buf := data[start..end];
    NothingCollected(id, data, literal, context, base, start, matches);
    hits, offsets := [], [];
    var i := 0;
    while i < |matches|
      invariant 0 <= i <= |matches| && |hits| <= i
      invariant AllOccur(data, literal, offsets) && hits == HitsAt(id, data, literal, context, offsets)
      invariant Within(offsets, base, base + CHUNK)
      invariant forall k, j :: 0 <= k < |offsets| && i <= j < |matches| ==> offsets[k] < start + matches[j]
      invariant forall k, j :: 0 <= k < j < |offsets| ==> offsets[k] < offsets[j]
      invariant offsets == InChunk(Shifted(matches[..i], start), base)
    {
      var m := matches[i];
      var absolute := start + m;
      OneMoreMatch(matches, i, start, base);
      if base <= absolute < base + CHUNK {
        WindowHit(id, data, literal, context, base, start, end, m);
        HitsAppend(id, data, literal, context, offsets, absolute);
        var lo := Max(0, m - context);
        var hi := Min(|buf|, m + |literal| + context);
        hits := hits + [Hit(id, absolute, |literal|, buf[lo..hi])];
        offsets := offsets + [absolute];
      }
      i := i + 1;
    }
    assert matches[..i] == matches;
  }

  datatype Source = Source(id: Id, data: string)

  ghost predicate DistinctSources(objects: seq<Source>) {
    forall i, j :: 0 <= i < j < |objects| ==> objects[i].id != objects[j].id
  }

  /** Every hit is a true occurrence in an object with exactly that object's bytes around it,
      and within one object offsets strictly increase. */
  ghost predicate AllSound(objects: seq<Source>, literal: string, context: nat, hits: seq<Hit>) {
    && (forall i :: 0 <= i < |hits| ==> exists k :: 0 <= k < |objects| && IsHit(objects[k], literal, context, hits[i]))
    && (forall i, j :: 0 <= i < j < |hits| && hits[i].obj == hits[j].obj ==> hits[i].offset < hits[j].offset)
  }

  ghost predicate IsHit(o: Source, literal: string, context: nat, h: Hit) {
    h.obj == o.id && Occurs(o.data, literal, h.offset) && h == HitAt(o.id, o.data, literal, context, h.offset)
  }

  function AllChunks(objects: seq<Source>, literal: string, context: nat): seq<Chunk> {
    if objects == [] then [] else
    var o := objects[|objects| - 1];
    AllChunks(objects[..|objects| - 1], literal, context) + ChunksFrom(o.id, o.data, literal, context, 0)
  }

  lemma {:induction false} AddChunksAppend(found: seq<Hit>, a: seq<Chunk>, b: seq<Chunk>, limit: nat)
    ensures AddChunks(found, a + b, limit) == AddChunks(AddChunks(found, a, limit), b, limit)
    decreases |a|
  {
    if a == [] {
      assert a + b == b;
    } else {
      assert (a + b)[1..] == a[1..] + b;
      AddChunksAppend(AddChunk(found, a[0], limit), a[1..], b, limit);
    }
  }

  lemma {:induction false} FullTakesNothing(found: seq<Hit>, cs: seq<Chunk>, limit: nat)
    requires |found| >= limit
    ensures AddChunks(found, cs, limit) == found
    decreases |cs|
  {
    if cs != [] {
      FullTakesNothing(found, cs[1..], limit);
    }
  }

  lemma SoundOver(objects: seq<Source>, k: nat, literal: string, context: nat, found: seq<Hit>, own: seq<Hit>)
    requires k < |objects| && AllSound(objects[..k], literal, context, found) && DistinctSources(objects)
    requires Sound(objects[k].id, objects[k].data, literal, context, own)
    ensures AllSound(objects[..k + 1], literal, context, found + own)
  {
    hide Occurs, HitAt;
    var all, now := found + own, objects[..k + 1];
    forall i | 0 <= i < |all|
      ensures exists l :: 0 <= l < |now| && IsHit(now[l], literal, context, all[i])
    {
      if i < |found| {
        var l :| 0 <= l < k && IsHit(objects[..k][l], literal, context, found[i]);
        assert IsHit(now[l], literal, context, all[i]);
      } else {
        assert own[i - |found|] in own;
        assert IsHit(now[k], literal, context, all[i]);
      }
    }
    forall i, j | 0 <= i < j < |all| && all[i].obj == all[j].obj
      ensures all[i].offset < all[j].offset
    {
      if j >= |found| {
        assert own[j - |found|] in own;
        if i < |found| {
          EarlierObject(objects, k, literal, context, found, i);
        }
      }
    }
  }

  lemma EarlierObject(objects: seq<Source>, k: nat, literal: string, context: nat, found: seq<Hit>, i: nat)
    requires k < |objects| && AllSound(objects[..k], literal, context, found) && DistinctSources(objects) && i < |found|
    ensures found[i].obj != objects[k].id
  {
    hide Occurs, HitAt;
    var l :| 0 <= l < k && IsHit(objects[..k][l], literal, context, found[i]);
    assert objects[l].id != objects[k].id;
  }

  /** The chunk loop over one object. */
  method SearchObject(o: Source, literal: string, context: nat, limit: nat, found: seq<Hit>) returns (own: seq<Hit>)
    requires literal != "" && |found| < limit
    ensures |found| + |own| <= limit && Sound(o.id, o.data, literal, context, own)
    ensures Unbordered(literal) ==>
              found + own == AddChunks(found, ChunksFrom(o.id, o.data, literal, context, 0), limit)
  {
    hide Occurs, HitAt, Unbordered, ChunkAt, AddChunks;
    own := [];
    assert found + own == found;
    var base := 0;
    ghost var rest := ChunksFrom(o.id, o.data, literal, context, 0);
    while base < |o.data| && |found| + |own| < limit
      invariant |found| + |own| <= limit && Sound(o.id, o.data, literal, context, own)
      invariant forall i :: 0 <= i < |own| ==> own[i].offset < base
      invariant rest == ChunksFrom(o.id, o.data, literal, context, base)
      invariant Unbordered(literal) ==>
        AddChunks(found + own, rest, limit) == AddChunks(found, ChunksFrom(o.id, o.data, literal, context, 0), limit)
      decreases |o.data| - base
    {
      var more := SearchChunk(o.id, o.data, literal, context, base, limit - |found| - |own|);
      SoundJoin(o, literal, context, own, more);
      OneChunk(found + own, rest, limit);
      assert found + (own + more) == (found + own) + more;
      own := own + more;
      base := base + CHUNK;
      rest := rest[1..];
    }
    if base >= |o.data| {
      NoChunks(found + own, limit);
    } else {
      FullTakesNothing(found + own, rest, limit);
    }
  }

  lemma NoChunks(found: seq<Hit>, limit: nat)
    ensures AddChunks(found, [], limit) == found
  {
  }

  lemma OneChunk(found: seq<Hit>, cs: seq<Chunk>, limit: nat)
    requires cs != [] && |found| < limit
    ensures AddChunks(found, cs, limit) == AddChunks(found + Take(cs[0].hits, limit - |found| - cs[0].pre), cs[1..], limit)
  {
  }

  lemma SoundJoin(o: Source, literal: string, context: nat, own: seq<Hit>, more: seq<Hit>)
    requires Sound(o.id, o.data, literal, context, own) && Sound(o.id, o.data, literal, context, more)
    requires forall i, j :: 0 <= i < |own| && 0 <= j < |more| ==> own[i].offset < more[j].offset
    ensures Sound(o.id, o.data, literal, context, own + more)
  {
    hide Occurs, HitAt;
  }

  /** SearchBytes for a literal, over the selected objects and manifests in selection order. */
  method SearchBytes(objects: seq<Source>, literal: string, context: int, limit: int) returns (r: Tx<seq<Hit>, ()>)
    requires DistinctSources(objects)
    ensures literal == "" || |literal| > 1048576 || context < 0 || context > 4096 || limit > 100000 ==> r == Abort(Invalid)
    ensures !(literal == "" || |literal| > 1048576 || context < 0 || context > 4096 || limit > 100000) ==>
              r.Commit? && |r.state| <= (if limit > 0 then limit else 1000) && AllSound(objects, literal, context, r.state)
    ensures !(literal == "" || |literal| > 1048576 || context < 0 || context > 4096 || limit > 100000) && Unbordered(literal) ==>
              r.state == AddChunks([], AllChunks(objects, literal, context), if limit > 0 then limit else 1000)
  {
    if literal == "" || |literal| > WINDOW || context < 0 || context > 4096 || limit > 100000 {
      return Abort(Invalid);
    }
    hide Unbordered, AddChunks, ChunksFrom, AllSound;
    var max: nat := if limit <= 0 then 1000 else limit;
    var hits: seq<Hit> := [];
    var k := 0;
    NothingFound(objects, literal, context, max);
    while k < |objects| && |hits| < max
      invariant 0 <= k <= |objects| && |hits| <= max
      invariant AllSound(objects[..k], literal, context, hits)
      invariant Unbordered(literal) ==> hits == AddChunks([], AllChunks(objects[..k], literal, context), max)
    {
      var own := SearchObject(objects[k], literal, context, max, hits);
      SoundOver(objects, k, literal, context, hits, own);
      ChunksOfOneMore(objects, k, literal, context, max);
      hits := hits + own;
      k := k + 1;
    }
    RestAddsNothing(objects, k, literal, context, hits, max);
    r := Commit(hits, ());
  }

  lemma NothingFound(objects: seq<Source>, literal: string, context: nat, limit: nat)
    ensures AllSound(objects[..0], literal, context, []) && AddChunks([], AllChunks(objects[..0], literal, context), limit) == []
  {
  }

  lemma ChunksOfOneMore(objects: seq<Source>, k: nat, literal: string, context: nat, limit: nat)
    requires k < |objects|
    ensures AddChunks([], AllChunks(objects[..k + 1], literal, context), limit)
            == AddChunks(AddChunks([], AllChunks(objects[..k], literal, context), limit),
                         ChunksFrom(objects[k].id, objects[k].data, literal, context, 0), limit)
  {
    assert objects[..k + 1][..k] == objects[..k];
    AddChunksAppend([], AllChunks(objects[..k], literal, context),
                    ChunksFrom(objects[k].id, objects[k].data, literal, context, 0), limit);
  }

  /** Objects after the one that filled the result are not read, and would add nothing. */
  lemma {:induction false} RestAddsNothing(objects: seq<Source>, k: nat, literal: string, context: nat, hits: seq<Hit>, limit: nat)
    requires DistinctSources(objects) && k <= |objects| && AllSound(objects[..k], literal, context, hits) && (k == |objects| || |hits| >= limit)
    ensures AllSound(objects, literal, context, hits)
    ensures hits == AddChunks([], AllChunks(objects[..k], literal, context), limit) ==>
              hits == AddChunks([], AllChunks(objects, literal, context), limit)
    decreases |objects| - k
  {
    hide Occurs, HitAt, AddChunks, ChunksFrom, AllChunks, AllSound, DistinctSources;
    if k == |objects| {
      assert objects[..k] == objects;
    } else {
      ChunksOfOneMore(objects, k, literal, context, limit);
      FullTakesNothing(hits, ChunksFrom(objects[k].id, objects[k].data, literal, context, 0), limit);
      SoundOver(objects, k, literal, context, hits, []);
      assert hits + [] == hits;
      RestAddsNothing(objects, k + 1, literal, context, hits, limit);
    }
  }

  // ---- Exactness ----

  function AllHits(cs: seq<Chunk>): seq<Hit> {
    if cs == [] then [] else AllHits(cs[..|cs| - 1]) + cs[|cs| - 1].hits
  }

  lemma {:induction false} AllHitsAppend(a: seq<Chunk>, b: seq<Chunk>)
    ensures AllHits(a + b) == AllHits(a) + AllHits(b)
    decreases |b|
  {
    if b == [] {
      assert a + b == a;
    } else {
      assert (a + b)[..|a + b| - 1] == a + b[..|b| - 1];
      AllHitsAppend(a, b[..|b| - 1]);
    }
  }

  /** The cap costs this chunk nothing. */
  predicate Fits(cs: seq<Chunk>, k: nat, limit: nat)
    requires k < |cs|
  {
    var h := |AllHits(cs[..k])|;
    h >= limit || cs[k].pre == 0 || cs[k].hits == [] || h + cs[k].pre + |cs[k].hits| <= limit
  }

  ghost predicate NoRepeats(s: seq<Hit>) {
    forall i, j :: 0 <= i < j < |s| ==> s[i] != s[j]
  }

  /** What later chunks add comes after what is there and comes from those chunks. */
  lemma {:induction false} LaterOnly(found: seq<Hit>, cs: seq<Chunk>, limit: nat)
    ensures found <= AddChunks(found, cs, limit)
    ensures forall i :: |found| <= i < |AddChunks(found, cs, limit)| ==> AddChunks(found, cs, limit)[i] in AllHits(cs)
    decreases |cs|
  {
    if cs != [] {
      var next := AddChunk(found, cs[0], limit);
      LaterOnly(next, cs[1..], limit);
      assert cs == [cs[0]] + cs[1..];
      AllHitsAppend([cs[0]], cs[1..]);
      assert [cs[0]][..0] == [];
      assert AllHits([cs[0]]) == cs[0].hits;
    }
  }

  /** With the first chunks of cs done exactly, the whole is exact iff every other chunk fits. */
  lemma {:induction false} ExactFrom(cs: seq<Chunk>, k: nat, limit: nat)
    requires k <= |cs| && NoRepeats(AllHits(cs)) && limit > 0
    ensures AddChunks(Take(AllHits(cs[..k]), limit), cs[k..], limit) == Take(AllHits(cs), limit)
            <==> forall j :: k <= j < |cs| ==> Fits(cs, j, limit)
    decreases |cs| - k
  {
    hide Fits, AllHits;
    if k == |cs| {
      assert cs[..k] == cs && cs[k..] == [];
    } else {
      ExactFrom(cs, k + 1, limit);
      var found := Take(AllHits(cs[..k]), limit);
      assert cs[k..][1..] == cs[k + 1..] && cs[k..][0] == cs[k];
      if Fits(cs, k, limit) {
        FittingChunk(cs, k, limit);
      } else {
        HitLost(cs, k, limit);
      }
    }
  }

  lemma HitsThrough(cs: seq<Chunk>, k: nat)
    requires k < |cs|
    ensures AllHits(cs[..k + 1]) == AllHits(cs[..k]) + cs[k].hits
    ensures AllHits(cs) == AllHits(cs[..k]) + cs[k].hits + AllHits(cs[k + 1..])
  {
    hide AllHits;
    assert cs[..k + 1][..k] == cs[..k];
    LastHits(cs[..k + 1]);
    assert cs == cs[..k + 1] + cs[k + 1..];
    AllHitsAppend(cs[..k + 1], cs[k + 1..]);
  }

  lemma LastHits(cs: seq<Chunk>)
    requires cs != []
    ensures AllHits(cs) == AllHits(cs[..|cs| - 1]) + cs[|cs| - 1].hits
  {
  }

  lemma FittingChunk(cs: seq<Chunk>, k: nat, limit: nat)
    requires k < |cs| && Fits(cs, k, limit) && limit > 0
    ensures AddChunk(Take(AllHits(cs[..k]), limit), cs[k], limit) == Take(AllHits(cs[..k + 1]), limit)
  {
    HitsThrough(cs, k);
    hide AllHits;
  }

  /** A chunk that does not fit loses a hit for good. */
  lemma HitLost(cs: seq<Chunk>, k: nat, limit: nat)
    requires k < |cs| && !Fits(cs, k, limit) && NoRepeats(AllHits(cs))
    ensures AddChunks(Take(AllHits(cs[..k]), limit), cs[k..], limit) != Take(AllHits(cs), limit)
  {
    hide AllHits;
    HitsThrough(cs, k);
    var c := cs[k];
    var found, rest := AllHits(cs[..k]), cs[k + 1..];
    assert cs[k..][1..] == rest && cs[k..][0] == c;
    assert Take(found, limit) == found;
    var m := Max(0, limit - |found| - c.pre);
    var next := found + c.hits[..m];
    assert AddChunk(found, c, limit) == next;
    LaterOnly(next, rest, limit);
    MissingElement(found, c.hits, AllHits(rest), m, limit, AddChunks(next, rest, limit));
  }

  /** A result that leaves out own[m] and goes on with later elements is not a prefix of all. */
  lemma MissingElement(found: seq<Hit>, own: seq<Hit>, later: seq<Hit>, m: nat, limit: nat, result: seq<Hit>)
    requires NoRepeats(found + own + later) && m < |own| && |found| + m < limit
    requires found + own[..m] <= result
    requires forall i :: |found| + m <= i < |result| ==> result[i] in later
    ensures result != Take(found + own + later, limit)
  {
    var all, p := found + own + later, |found| + m;
    assert all[p] == own[m];
    if p < |result| {
      var i :| 0 <= i < |later| && later[i] == result[p];
      assert all[|found| + |own| + i] == result[p];
    }
  }

  /** The capped search returns the first limit hits of all exactly when every chunk fits. */
  lemma ExactIff(cs: seq<Chunk>, limit: nat)
    requires NoRepeats(AllHits(cs)) && limit > 0
    ensures AddChunks([], cs, limit) == Take(AllHits(cs), limit) <==> forall k :: 0 <= k < |cs| ==> Fits(cs, k, limit)
  {
    ExactFrom(cs, 0, limit);
    assert cs[..0] == [] && cs[0..] == cs;
  }

  // ---- Whole objects ----

  /** Search of whole objects: every occurrence in each, in order. */
  function WholeSearch(objects: seq<Source>, literal: string, context: nat): seq<Hit> {
    if objects == [] then [] else
    var o := objects[|objects| - 1];
    WholeSearch(objects[..|objects| - 1], literal, context) + HitsIn(o.id, o.data, literal, context, 0, |o.data|)
  }

  lemma HitsSplit(id: Id, data: string, literal: string, context: nat, a: int, b: int, c: int)
    requires a <= b <= c
    ensures HitsIn(id, data, literal, context, a, c)
            == HitsIn(id, data, literal, context, a, b) + HitsIn(id, data, literal, context, b, c)
  {
    hide Occurs, OccsIn, HitAt;
    OccsSplit(data, literal, a, b, c);
  }

  lemma NoHitsAfterEnd(id: Id, data: string, literal: string, context: nat, lo: int, hi: int)
    requires literal != "" && lo >= |data|
    ensures HitsIn(id, data, literal, context, lo, hi) == []
  {
    NoOccs(data, literal, lo, hi);
  }

  lemma {:induction false} ChunksCover(id: Id, data: string, literal: string, context: nat, base: nat)
    requires literal != ""
    ensures AllHits(ChunksFrom(id, data, literal, context, base)) == HitsIn(id, data, literal, context, base, Max(base, |data|))
    decreases |data| - base
  {
    hide HitsIn, OccsIn;
    if base < |data| {
      var first, rest := ChunkAt(id, data, literal, context, base), ChunksFrom(id, data, literal, context, base + CHUNK);
      ChunksCover(id, data, literal, context, base + CHUNK);
      AllHitsAppend([first], rest);
      OneChunkHits(first);
      var end := Max(base + CHUNK, |data|);
      HitsSplit(id, data, literal, context, base, base + CHUNK, end);
      HitsSplit(id, data, literal, context, base, |data|, end);
      NoHitsAfterEnd(id, data, literal, context, |data|, end);
    } else {
      NoHitsAfterEnd(id, data, literal, context, base, base);
    }
  }

  lemma OneChunkHits(c: Chunk)
    ensures AllHits([c]) == c.hits
  {
    assert [c][..0] == [];
  }

  /** The chunks of all objects hold each occurrence once, in order. */
  lemma {:induction false} ChunksCoverAll(objects: seq<Source>, literal: string, context: nat)
    requires literal != ""
    ensures AllHits(AllChunks(objects, literal, context)) == WholeSearch(objects, literal, context)
    decreases |objects|
  {
    hide HitsIn, ChunksFrom;
    if objects != [] {
      var before, o := objects[..|objects| - 1], objects[|objects| - 1];
      ChunksCoverAll(before, literal, context);
      AllHitsAppend(AllChunks(before, literal, context), ChunksFrom(o.id, o.data, literal, context, 0));
      ChunksCover(o.id, o.data, literal, context, 0);
    }
  }

  lemma WholeObjectIsSound(o: Source, literal: string, context: nat)
    ensures Sound(o.id, o.data, literal, context, HitsIn(o.id, o.data, literal, context, 0, |o.data|))
  {
    var offsets := OccsIn(o.data, literal, 0, |o.data|);
    assert forall i :: 0 <= i < |offsets| ==> offsets[i] in offsets;
    hide Occurs, HitAt, Sound;
    OffsetsAreSound(o.id, o.data, literal, context, offsets);
  }

  lemma {:induction false} WholeSearchIsSound(objects: seq<Source>, literal: string, context: nat)
    requires DistinctSources(objects)
    ensures AllSound(objects, literal, context, WholeSearch(objects, literal, context))
    decreases |objects|
  {
    if objects != [] {
      var k := |objects| - 1;
      hide AllSound, HitsIn;
      WholeSearchIsSound(objects[..k], literal, context);
      WholeObjectIsSound(objects[k], literal, context);
      SoundOver(objects, k, literal, context, WholeSearch(objects[..k], literal, context),
                HitsIn(objects[k].id, objects[k].data, literal, context, 0, |objects[k].data|));
      assert objects[..k + 1] == objects;
    }
  }

  lemma SoundHasNoRepeats(objects: seq<Source>, literal: string, context: nat, hits: seq<Hit>)
    requires AllSound(objects, literal, context, hits)
    ensures NoRepeats(hits)
  {
    hide Occurs, HitAt;
  }

  // ---- Leading context ----

  /** The context of a chunk never counts more than what earlier chunks hold. */
  ghost predicate Counted(cs: seq<Chunk>) {
    forall k :: 0 <= k < |cs| ==> cs[k].pre <= |AllHits(cs[..k])|
  }

  lemma {:induction false} PreIsCounted(id: Id, data: string, literal: string, context: nat, base: nat, j: nat)
    requires j < |ChunksFrom(id, data, literal, context, base)|
    ensures var cs := ChunksFrom(id, data, literal, context, base);
            cs[j].pre <= |OccsIn(data, literal, 0, base)| + |AllHits(cs[..j])|
    decreases j
  {
    hide OccsIn, HitsIn, AllHits;
    var cs := ChunksFrom(id, data, literal, context, base);
    var first, rest := ChunkAt(id, data, literal, context, base), ChunksFrom(id, data, literal, context, base + CHUNK);
    assert cs == [first] + rest;
    if j == 0 {
      OccsSplit(data, literal, 0, Max(0, base - context), base);
    } else {
      PreIsCounted(id, data, literal, context, base + CHUNK, j - 1);
      OccsSplit(data, literal, 0, base, base + CHUNK);
      assert cs[..j] == [first] + rest[..j - 1];
      AllHitsAppend([first], rest[..j - 1]);
      OneChunkHits(first);
      OwnCount(id, data, literal, context, base);
    }
  }

  lemma OwnCount(id: Id, data: string, literal: string, context: nat, base: nat)
    ensures |ChunkAt(id, data, literal, context, base).hits| == |OccsIn(data, literal, base, base + CHUNK)|
  {
  }

  lemma {:induction false} AllCounted(objects: seq<Source>, literal: string, context: nat)
    ensures Counted(AllChunks(objects, literal, context))
    decreases |objects|
  {
    hide ChunksFrom, AllHits;
    if objects != [] {
      var before, o := objects[..|objects| - 1], objects[|objects| - 1];
      AllCounted(before, literal, context);
      CountedAppend(AllChunks(before, literal, context), o, literal, context);
    }
  }

  lemma CountedAppend(a: seq<Chunk>, o: Source, literal: string, context: nat)
    requires Counted(a)
    ensures Counted(a + ChunksFrom(o.id, o.data, literal, context, 0))
  {
    var b := ChunksFrom(o.id, o.data, literal, context, 0);
    NoOccs(o.data, literal, 0, 0);
    hide ChunksFrom, AllHits, OccsIn;
    var cs := a + b;
    forall k | 0 <= k < |cs|
      ensures cs[k].pre <= |AllHits(cs[..k])|
    {
      if k < |a| {
        assert cs[..k] == a[..k];
      } else {
        assert cs[..k] == a + b[..k - |a|];
        AllHitsAppend(a, b[..k - |a|]);
        PreIsCounted(o.id, o.data, literal, context, 0, k - |a|);
      }
    }
  }

  lemma {:induction false} NoContextNoPre(objects: seq<Source>, literal: string)
    ensures forall k :: 0 <= k < |AllChunks(objects, literal, 0)| ==> AllChunks(objects, literal, 0)[k].pre == 0
    decreases |objects|
  {
    if objects != [] {
      var o := objects[|objects| - 1];
      NoContextNoPre(objects[..|objects| - 1], literal);
      NoPreFrom(o.id, o.data, literal, 0);
      hide ChunksFrom;
    }
  }

  lemma {:induction false} NoPreFrom(id: Id, data: string, literal: string, base: nat)
    ensures forall k :: 0 <= k < |ChunksFrom(id, data, literal, 0, base)| ==> ChunksFrom(id, data, literal, 0, base)[k].pre == 0
    decreases |data| - base
  {
    if base < |data| {
      NoPreFrom(id, data, literal, base + CHUNK);
      NoOccs(data, literal, base, base);
      hide HitsIn;
    }
  }

  lemma {:induction false} HitsUpTo(cs: seq<Chunk>, k: nat)
    requires k < |cs|
    ensures |AllHits(cs[..k])| + |cs[k].hits| <= |AllHits(cs)|
  {
    HitsThrough(cs, k);
  }

  /** For a literal that cannot overlap itself the search returns the first limit occurrences
      exactly when no chunk is hurt by the matches of its leading context. */
  lemma SearchIsExactIff(objects: seq<Source>, literal: string, context: nat, limit: nat)
    requires DistinctSources(objects) && literal != "" && limit > 0
    ensures AddChunks([], AllChunks(objects, literal, context), limit) == Take(WholeSearch(objects, literal, context), limit)
            <==> forall k :: 0 <= k < |AllChunks(objects, literal, context)| ==> Fits(AllChunks(objects, literal, context), k, limit)
  {
    hide AllSound, AllChunks, WholeSearch, AddChunks;
    ChunksCoverAll(objects, literal, context);
    WholeSearchIsSound(objects, literal, context);
    SoundHasNoRepeats(objects, literal, context, WholeSearch(objects, literal, context));
    ExactIff(AllChunks(objects, literal, context), limit);
  }

  /** It does without context, for a single hit, and with a limit of at least twice the number
      of occurrences. */
  lemma SearchIsExact(objects: seq<Source>, literal: string, context: nat, limit: nat)
    requires DistinctSources(objects) && literal != "" && limit > 0
    requires context == 0 || limit == 1 || limit >= 2 * |WholeSearch(objects, literal, context)|
    ensures AddChunks([], AllChunks(objects, literal, context), limit) == Take(WholeSearch(objects, literal, context), limit)
  {
    hide AllChunks, WholeSearch, AddChunks, AllHits;
    var cs := AllChunks(objects, literal, context);
    ChunksCoverAll(objects, literal, context);
    AllCounted(objects, literal, context);
    forall k | 0 <= k < |cs|
      ensures Fits(cs, k, limit)
    {
      if context == 0 {
        NoContextNoPre(objects, literal);
      }
      HitsUpTo(cs, k);
    }
    SearchIsExactIff(objects, literal, context, limit);
  }

  // ---- A lost hit ----

  /** An object of 65537 bytes whose last two bytes are the literal. */
  function EdgeData(): string {
    seq(CHUNK + 1, i => if i >= CHUNK - 1 then 'x' else 'o')
  }

  /** Searching it with one byte of context and a limit of two returns one hit of two. */
  lemma EdgeHitIsLost(id: Id)
    ensures var objects := [Source(id, EdgeData())];
            && |WholeSearch(objects, "x", 1)| == 2
            && |AddChunks([], AllChunks(objects, "x", 1), 2)| == 1
  {
    hide OccsIn, Occurs, ChunksFrom, ChunkAt, HitsIn, EdgeData, AllChunks, WholeSearch;
    var d := EdgeData();
    OneObject(Source(id, d), "x", 1);
    EdgeHits(id);
    EdgeChunks(id);
    TwoChunks(ChunkAt(id, d, "x", 1, 0), ChunkAt(id, d, "x", 1, CHUNK), 2);
  }

  lemma OneObject(o: Source, literal: string, context: nat)
    ensures AllChunks([o], literal, context) == ChunksFrom(o.id, o.data, literal, context, 0)
    ensures WholeSearch([o], literal, context) == HitsIn(o.id, o.data, literal, context, 0, |o.data|)
  {
    assert [o][..0] == [];
    hide ChunksFrom, HitsIn;
  }

  lemma TwoChunks(c: Chunk, d: Chunk, limit: nat)
    requires limit > 0
    ensures AddChunks([], [c, d], limit) == AddChunk(Take(c.hits, limit - c.pre), d, limit)
  {
    var first := AddChunk([], c, limit);
    assert [c, d][1..] == [d] && [d][1..] == [];
    assert AddChunks([], [c, d], limit) == AddChunks(first, [d], limit);
    assert AddChunks(first, [d], limit) == AddChunks(AddChunk(first, d, limit), [], limit);
    assert first == Take(c.hits, limit - c.pre);
  }

  lemma EdgeHits(id: Id)
    ensures |HitsIn(id, EdgeData(), "x", 1, 0, |EdgeData()|)| == 2
  {
    EdgeOccurrences();
    OccsSplit(EdgeData(), "x", 0, CHUNK, CHUNK + 1);
  }

  lemma EdgeOccurrences()
    ensures OccsIn(EdgeData(), "x", 0, CHUNK) == [CHUNK - 1] && OccsIn(EdgeData(), "x", CHUNK - 1, CHUNK) == [CHUNK - 1]
    ensures OccsIn(EdgeData(), "x", CHUNK, CHUNK + 1) == [CHUNK] == OccsIn(EdgeData(), "x", CHUNK, CHUNK + CHUNK)
    ensures OccsIn(EdgeData(), "x", 0, 0) == []
  {
    var d := EdgeData();
    forall i | 0 <= i < |d|
      ensures Occurs(d, "x", i) <==> i >= CHUNK - 1
    {
      assert d[i..i + 1] == [d[i]];
    }
    NoOccs(d, "x", 0, CHUNK - 1);
    OccsSplit(d, "x", 0, CHUNK - 1, CHUNK);
    NoOccs(d, "x", CHUNK + 1, CHUNK + CHUNK);
    OccsSplit(d, "x", CHUNK, CHUNK + 1, CHUNK + CHUNK);
  }

  lemma EdgeChunks(id: Id)
    ensures var d := EdgeData();
            && ChunksFrom(id, d, "x", 1, 0) == [ChunkAt(id, d, "x", 1, 0), ChunkAt(id, d, "x", 1, CHUNK)]
            && ChunkAt(id, d, "x", 1, 0).pre == 0 && |ChunkAt(id, d, "x", 1, 0).hits| == 1
            && ChunkAt(id, d, "x", 1, CHUNK).pre == 1 && |ChunkAt(id, d, "x", 1, CHUNK).hits| == 1
  {
    var d := EdgeData();
    EdgeOccurrences();
    OwnCount(id, d, "x", 1, 0);
    OwnCount(id, d, "x", 1, CHUNK);
    hide OccsIn, HitsIn, EdgeData;
    assert |d| == CHUNK + 1;
    assert ChunksFrom(id, d, "x", 1, CHUNK + CHUNK) == [];
  }
}
