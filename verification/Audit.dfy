/** The audit hash chain: what a verifier accepts, and why the head pins the whole log. */
module Audit {
  import opened Common

  datatype Event = Event(
    domain: string, sequence: int, revision: int, previousHash: string, actor: string, session: string,
    operation: string, affected: seq<string>, requestDigest: string, recordedAt: string)

  /** A row of audit_events, which is keyed by sequence. */
  datatype Row = Row(sequence: int, revision: int, previousHash: string, body: string, hash: string)

  /** The audit rows in sequence order, the keys of the revisions table, and the revision and
      audit head in case_info. */
  datatype Log = Log(rows: seq<Row>, revisions: set<int>, revision: int, head: string)

  /** The hash and the JSON coding of events; both are given to the chain. */
  datatype Coding = Coding(hash: string -> string, encode: Event -> string, decode: string -> Option<Event>)

  const DOMAIN := "forensic-audit-v1"

  ghost predicate HexDigests(k: Coding) {
    forall s :: |k.hash(s)| == 64 && AllHex(k.hash(s))
  }

  /** JSON text that decodes to an event of a domain starts with a brace or white space. */
  ghost predicate BodiesStartOutsideHex(k: Coding) {
    forall s :: k.decode(s).Some? && k.decode(s).value.domain == DOMAIN ==> s != "" && !IsHex(s[0])
  }

  ghost predicate DecodesWhatItEncodes(k: Coding) {
    forall e :: k.decode(k.encode(e)) == Some(e)
  }

  // ---- Preimages ----

  function Decimal(n: int): (s: string)
    ensures s != ""
    ensures n >= 0 ==> AllHex(s)
    decreases if n < 0 then 1 - n else n
  {
    if n < 0 then "-" + Decimal(-n)
    else if n < 10 then [('0' as int + n) as char]
    else Decimal(n / 10) + [('0' as int + n % 10) as char]
  }

  lemma {:induction false} DecimalIsInjective(m: nat, n: nat)
    requires Decimal(m) == Decimal(n)
    ensures m == n
    decreases m
  {
    if m >= 10 && n >= 10 {
      assert Decimal(m)[..|Decimal(m)| - 1] == Decimal(m / 10);
      assert Decimal(n)[..|Decimal(n)| - 1] == Decimal(n / 10);
      DecimalIsInjective(m / 10, n / 10);
      assert Decimal(m)[|Decimal(m)| - 1] == Decimal(n)[|Decimal(n)| - 1];
    } else if m < 10 && n < 10 {
      assert Decimal(m)[0] == Decimal(n)[0];
    }
  }

  predicate AllDigits(s: string) {
    forall i :: 0 <= i < |s| ==> '0' <= s[i] <= '9'
  }

  /** The number that decimal digits stand for. */
  function ValueOf(s: string): int
    requires AllDigits(s)
  {
    if s == "" then 0 else 10 * ValueOf(s[..|s| - 1]) + (s[|s| - 1] as int - '0' as int)
  }

  /** A number is written in digits that stand for it, without a leading zero. */
  lemma {:induction false} DecimalReads(n: nat)
    ensures AllDigits(Decimal(n)) && ValueOf(Decimal(n)) == n && (n > 0 ==> Decimal(n)[0] != '0')
    decreases n
  {
    var s := Decimal(n);
    if n >= 10 {
      DecimalReads(n / 10);
      assert s[..|s| - 1] == Decimal(n / 10);
    } else {
      assert s[..|s| - 1] == "";
    }
  }

  /** The hashed text; the four parts have no separators. */
  function Preimage(domain: string, sequence: int, previousHash: string, body: string): string {
    domain + Decimal(sequence) + previousHash + body
  }

  /** The parts of an accepted row's preimage: no hash before the first row, 64 hexadecimal
      digits before any other, and a body that starts outside their alphabet. */
  ghost predicate Parts(sequence: nat, previousHash: string, body: string) {
    && sequence >= 1 && body != "" && !IsHex(body[0])
    && (if sequence == 1 then previousHash == "" else |previousHash| == 64 && AllHex(previousHash))
  }

  /** Although nothing separates them, the parts can be read back from the text. */
  lemma PreimageIsInjective(m: nat, p: string, b: string, n: nat, q: string, d: string)
    requires Parts(m, p, b) && Parts(n, q, d)
    requires Preimage(DOMAIN, m, p, b) == Preimage(DOMAIN, n, q, d)
    ensures m == n && p == q && b == d
  {
    var x, y := Decimal(m) + p, Decimal(n) + q;
    assert AllHex(x) && AllHex(y);
    var u, v := Preimage(DOMAIN, m, p, b), Preimage(DOMAIN, n, q, d);
    assert u == DOMAIN + (x + b) && v == DOMAIN + (y + d);
    assert x + b == u[|DOMAIN|..] && y + d == v[|DOMAIN|..];
    SplitAtFirstNonHex(x, b, y, d);
    DecimalOfOne(m);
    DecimalOfOne(n);
    assert p == x[|Decimal(m)|..] && q == y[|Decimal(n)|..];
    assert Decimal(m) == x[..|x| - |p|] && Decimal(n) == y[..|y| - |q|];
    assert |p| == |q|;
    DecimalIsInjective(m, n);
  }

  lemma DecimalOfOne(n: nat)
    ensures n == 1 ==> |Decimal(n)| == 1
  {
  }

  lemma SplitAtFirstNonHex(x: string, b: string, y: string, d: string)
    requires AllHex(x) && AllHex(y) && b != "" && d != "" && !IsHex(b[0]) && !IsHex(d[0])
    requires x + b == y + d
    ensures x == y && b == d
  {
    var u, v := x + b, y + d;
    assert (forall i :: 0 <= i < |x| ==> IsHex(u[i])) && !IsHex(u[|x|]);
    assert (forall i :: 0 <= i < |y| ==> IsHex(v[i])) && !IsHex(v[|y|]);
    assert |x| == |y|;
    assert x == (x + b)[..|x|] && y == (y + d)[..|y|];
    assert b == (x + b)[|x|..] && d == (y + d)[|y|..];
  }

  // ---- Acceptance ----

  function HashBefore(rows: seq<Row>, i: nat): string
    requires i <= |rows|
  {
    if i == 0 then "" else rows[i - 1].hash
  }

  ghost predicate RowAccepted(k: Coding, rows: seq<Row>, i: nat)
    requires i < |rows|
  {
    var row := rows[i];
    && row.sequence == i + 1 && row.previousHash == HashBefore(rows, i)
    && k.decode(row.body).Some?
    && (var e := k.decode(row.body).value;
        e.domain == DOMAIN && e.sequence == row.sequence && e.revision == row.sequence && e.previousHash == row.previousHash
        && row.hash == k.hash(Preimage(e.domain, row.sequence, row.previousHash, row.body)))
  }

  function RowRevisions(rows: seq<Row>): set<int> {
    set r | r in rows :: r.revision
  }

  /** The log that verifyAudit reports no issue about. */
  ghost predicate Accepted(k: Coding, log: Log) {
    && (forall i :: 0 <= i < |log.rows| ==> RowAccepted(k, log.rows, i))
    && log.head == HashBefore(log.rows, |log.rows|) && log.revision == |log.rows|
    && log.revisions == RowRevisions(log.rows)
  }

  datatype Issue = AuditOrder(at: int) | AuditJson(at: int) | AuditEvent(at: int) | AuditHash(at: int)
                 | AuditHead | AuditRevision | RevisionHistory

  /** verifyAudit */
  method VerifyAudit(k: Coding, log: Log) returns (issues: seq<Issue>)
    ensures issues == [] <==> Accepted(k, log)
  {
    issues := [];
    var prev, expected := "", 1;
    var i := 0;
    while i < |log.rows|
      invariant 0 <= i <= |log.rows|
      invariant issues == [] <==> forall j :: 0 <= j < i ==> RowAccepted(k, log.rows, j)
      invariant issues == [] ==> prev == HashBefore(log.rows, i) && expected == i + 1
    {
      var row := log.rows[i];
      ghost var earlier := issues;
      if row.sequence != expected || row.previousHash != prev {
        issues := issues + [AuditOrder(row.sequence)];
      }
      i := i + 1;
      if k.decode(row.body).None? {
        issues := issues + [AuditJson(row.sequence)];
        assert issues != [] && !RowAccepted(k, log.rows, i - 1);
        continue;
      }
      var e := k.decode(row.body).value;
      if e.domain != DOMAIN || e.sequence != row.sequence || e.revision != row.sequence || e.previousHash != row.previousHash {
        issues := issues + [AuditEvent(row.sequence)];
      }
      if row.hash != k.hash(Preimage(e.domain, row.sequence, row.previousHash, row.body)) {
        issues := issues + [AuditHash(row.sequence)];
      }
      assert if earlier == [] then issues == [] <==> RowAccepted(k, log.rows, i - 1) else issues != [];
      prev := row.hash;
      expected := expected + 1;
    }
    if log.head != prev {
      issues := issues + [AuditHead];
    }
    if log.revision != expected - 1 {
      issues := issues + [AuditRevision];
    }
    if log.revisions != RowRevisions(log.rows) {
      issues := issues + [RevisionHistory];
    }
  }

  // ---- The head pins the log ----

  /** Everything the chain protects: all columns but audit_events.revision. */
  predicate SameRows(s: seq<Row>, t: seq<Row>) {
    |s| == |t| && forall i :: 0 <= i < |s| ==>
      s[i].sequence == t[i].sequence && s[i].previousHash == t[i].previousHash && s[i].body == t[i].body && s[i].hash == t[i].hash
  }

  ghost predicate ChainAccepted(k: Coding, rows: seq<Row>) {
    forall i :: 0 <= i < |rows| ==> RowAccepted(k, rows, i)
  }

  lemma RowHasParts(k: Coding, rows: seq<Row>, i: nat)
    requires HexDigests(k) && BodiesStartOutsideHex(k) && ChainAccepted(k, rows) && i < |rows|
    ensures Parts(i + 1, rows[i].previousHash, rows[i].body)
    ensures rows[i].sequence == i + 1 && rows[i].hash == k.hash(Preimage(DOMAIN, i + 1, rows[i].previousHash, rows[i].body))
  {
    assert RowAccepted(k, rows, i);
    if i > 0 {
      assert RowAccepted(k, rows, i - 1);
    }
  }

  /** Two accepted chains that end in the same hash are the same chain, or here are two texts
      with one hash. */
  lemma {:induction false} SameHashSameChain(k: Coding, s: seq<Row>, t: seq<Row>) returns (x: string, y: string)
    requires HexDigests(k) && BodiesStartOutsideHex(k) && ChainAccepted(k, s) && ChainAccepted(k, t)
    requires HashBefore(s, |s|) == HashBefore(t, |t|)
    ensures SameRows(s, t) || (x != y && k.hash(x) == k.hash(y))
    decreases |s|
  {
    x, y := "", "";
    if s == [] && t == [] {
      assert SameRows(s, t);
    }
    hide Preimage, HexDigests, BodiesStartOutsideHex, ChainAccepted, SameRows;
    if s != [] && t != [] {
      var m, n := |s| - 1, |t| - 1;
      RowHasParts(k, s, m);
      RowHasParts(k, t, n);
      x := Preimage(DOMAIN, m + 1, s[m].previousHash, s[m].body);
      y := Preimage(DOMAIN, n + 1, t[n].previousHash, t[n].body);
      if x == y {
        PreimageIsInjective(m + 1, s[m].previousHash, s[m].body, n + 1, t[n].previousHash, t[n].body);
        PrefixAccepted(k, s);
        PrefixAccepted(k, t);
        x, y := SameHashSameChain(k, s[..m], t[..n]);
        SameRowsAppend(s, t);
      }
    } else if s != [] {
      RowHasParts(k, s, |s| - 1);
    } else if t != [] {
      RowHasParts(k, t, |t| - 1);
    }
  }

  lemma SameRowsAppend(s: seq<Row>, t: seq<Row>)
    requires s != [] && t != []
    requires var u, v := s[|s| - 1], t[|t| - 1];
             u.sequence == v.sequence && u.previousHash == v.previousHash && u.body == v.body && u.hash == v.hash
    ensures SameRows(s[..|s| - 1], t[..|t| - 1]) ==> SameRows(s, t)
  {
    if SameRows(s[..|s| - 1], t[..|t| - 1]) {
      forall i | 0 <= i < |s|
        ensures s[i].sequence == t[i].sequence && s[i].previousHash == t[i].previousHash && s[i].body == t[i].body && s[i].hash == t[i].hash
      {
        if i < |s| - 1 {
          assert s[i] == s[..|s| - 1][i] && t[i] == t[..|t| - 1][i];
        }
      }
    }
  }

  lemma PrefixAccepted(k: Coding, s: seq<Row>)
    requires ChainAccepted(k, s) && s != []
    ensures ChainAccepted(k, s[..|s| - 1]) && HashBefore(s[..|s| - 1], |s| - 1) == s[|s| - 1].previousHash
  {
    var t := s[..|s| - 1];
    assert RowAccepted(k, s, |t|);
    forall i | 0 <= i < |t|
      ensures RowAccepted(k, t, i)
    {
      assert RowAccepted(k, s, i);
    }
  }

  /** Whoever can replace an accepted log by another accepted one under the same audit head
      holds a collision of the hash. */
  lemma HeadPinsLog(k: Coding, a: Log, b: Log) returns (x: string, y: string)
    requires HexDigests(k) && BodiesStartOutsideHex(k) && Accepted(k, a) && Accepted(k, b) && a.head == b.head
    ensures (SameRows(a.rows, b.rows) && a.revision == b.revision) || (x != y && k.hash(x) == k.hash(y))
  {
    x, y := SameHashSameChain(k, a.rows, b.rows);
  }

  /** The column the chain does not protect: an accepted log whose revision numbers were
      rewritten is still accepted, if and only if the same numbers occur. */
  lemma RevisionColumnIsFree(k: Coding, log: Log, rows: seq<Row>)
    requires Accepted(k, log) && SameRows(log.rows, rows)
    ensures Accepted(k, log.(rows := rows)) <==> RowRevisions(rows) == RowRevisions(log.rows)
  {
    forall l | 0 <= l < |rows|
      ensures RowAccepted(k, rows, l)
    {
      assert RowAccepted(k, log.rows, l);
    }
  }

  /** So two rows may always exchange their revision numbers. */
  lemma RevisionsMayBeExchanged(k: Coding, log: Log, i: nat, j: nat)
    requires Accepted(k, log) && i < j < |log.rows|
    ensures var swapped := log.rows[i := log.rows[i].(revision := log.rows[j].revision)]
                                   [j := log.rows[j].(revision := log.rows[i].revision)];
            Accepted(k, log.(rows := swapped))
  {
    var t := log.rows[i := log.rows[i].(revision := log.rows[j].revision)][j := log.rows[j].(revision := log.rows[i].revision)];
    RevisionColumnIsFree(k, log, t);
    assert t[i] in t && t[j] in t;
    forall r | r in RowRevisions(log.rows)
      ensures r in RowRevisions(t)
    {
      var l :| 0 <= l < |log.rows| && log.rows[l].revision == r;
      assert t[if l == i then j else if l == j then i else l].revision == r;
    }
    forall r | r in RowRevisions(t)
      ensures r in RowRevisions(log.rows)
    {
      var l :| 0 <= l < |t| && t[l].revision == r;
      assert log.rows[if l == i then j else if l == j then i else l].revision == r;
    }
  }

  // ---- Producers ----

  /** What a caller says about a change. */
  datatype Info = Info(actor: string, session: string, operation: string, affected: seq<string>, requestDigest: string)

  function NewEvent(next: int, head: string, info: Info, now: string): Event {
    Event(DOMAIN, next, next, head, info.actor, info.session, info.operation, info.affected, info.requestDigest, now)
  }

  /** One more event on the chain. */
  function Append(k: Coding, log: Log, info: Info, now: string): Log {
    var next := log.revision + 1;
    var body := k.encode(NewEvent(next, log.head, info, now));
    var hash := k.hash(Preimage(DOMAIN, next, log.head, body));
    Log(log.rows + [Row(next, next, log.head, body, hash)], log.revisions + {next}, next, hash)
  }

  const NO_LOG := Log([], {}, 0, "")

  /** A produced log also has the revisions 1 to n, each on its own row. */
  ghost predicate ProducedLog(k: Coding, log: Log) {
    && Accepted(k, log)
    && (forall i :: 0 <= i < |log.rows| ==> log.rows[i].revision == i + 1)
    && forall r :: r in log.revisions <==> 1 <= r <= log.revision
  }

  lemma AppendIsAccepted(k: Coding, log: Log, info: Info, now: string)
    requires ProducedLog(k, log) && DecodesWhatItEncodes(k)
    ensures ProducedLog(k, Append(k, log, info, now))
  {
    var d := Append(k, log, info, now);
    forall i | 0 <= i < |d.rows|
      ensures RowAccepted(k, d.rows, i)
    {
      if i < |log.rows| {
        assert RowAccepted(k, log.rows, i);
      }
    }
    assert d.rows[|log.rows|] in d.rows;
    assert forall r :: r in log.rows ==> r in d.rows;
    assert RowRevisions(d.rows) == RowRevisions(log.rows) + {d.revision};
  }

  /** The appended row's body says who did what, in which session, to which entities, at which
      sequence and revision and after which hash; the rows before it stay. */
  lemma AppendedEventSays(k: Coding, log: Log, info: Info, now: string)
    requires DecodesWhatItEncodes(k)
    ensures var d := Append(k, log, info, now);
            && |d.rows| == |log.rows| + 1 && d.rows[..|log.rows|] == log.rows && d.revision == log.revision + 1
            && var last := d.rows[|log.rows|];
               && last.sequence == d.revision && last.revision == d.revision && last.previousHash == log.head && d.head == last.hash
               && k.decode(last.body).Some?
               && var e := k.decode(last.body).value;
                  && e.domain == "forensic-audit-v1" && e.sequence == d.revision && e.revision == d.revision && e.previousHash == log.head
                  && e.actor == info.actor && e.session == info.session && e.operation == info.operation
                  && e.affected == info.affected && e.requestDigest == info.requestDigest && e.recordedAt == now
  {
  }

  /** An accepted row carries the hash of the version tag, its number, the hash before it and its
      body, one after the other, and its body repeats all of them but itself. */
  lemma AcceptedRowSays(k: Coding, log: Log, i: nat)
    requires Accepted(k, log) && i < |log.rows|
    ensures var row, before := log.rows[i], if i == 0 then "" else log.rows[i - 1].hash;
            && row.sequence == i + 1 && row.previousHash == before
            && row.hash == k.hash("forensic-audit-v1" + Decimal(i + 1) + before + row.body)
            && k.decode(row.body).Some?
            && var e := k.decode(row.body).value;
               e.domain == "forensic-audit-v1" && e.sequence == i + 1 && e.revision == i + 1 && e.previousHash == before
    ensures log.revision == |log.rows| && log.head == log.rows[|log.rows| - 1].hash
  {
    assert RowAccepted(k, log.rows, i);
  }
}
