/** The case file: catalog tables, revision and audit chain change together, in one
    transaction that is retried while the database is busy. */
module Mutation {
  import opened Common
  import opened Provenance
  import opened Catalog
  import opened CatalogInvariants
  import opened Audit

  /** What happens around one attempt of a transaction: the context may be cancelled, and
      beginning or committing may fail. */
  datatype Attempt = Attempt(cancelled: bool, begin: Option<Error>, commit: Option<Error>)

  datatype Outcome = Done(revision: int) | Refused(error: Error) | Stopped

  const ATTEMPTS := 4

  class CaseFile {
    const coding: Coding
    var schema: nat
    var catalog: Catalog
    var log: Log

    ghost predicate Valid()
      reads this
    {
      DecodesWhatItEncodes(coding) && Inv(catalog) && ProducedLog(coding, log) && catalog.core.revision == log.revision
    }

    /** initializeCase */
    constructor (k: Coding, version: nat, who: Actor, a: Order.Id, info: Info, now: string)
      requires DecodesWhatItEncodes(k)
      ensures Valid() && coding == k && schema == version
      ensures catalog == NewCase(who, a) && log == Append(k, NO_LOG, info, now)
    {
      coding, schema := k, version;
      catalog := NewCase(who, a);
      log := Append(k, NO_LOG, info, now);
      NewCaseInv(who, a);
      AppendIsAccepted(k, NO_LOG, info, now);
    }

    /** mutate, with the closure that serves a request. After at most four attempts the case
        has either served the request and recorded it once, or is untouched. */
    method Mutate(r: Request, info: Info, now: seq<string>, attempts: seq<Attempt>, after: Option<Error>) returns (out: Outcome)
      requires Valid() && |attempts| == |now| == 4
      modifies this`catalog, this`log
      ensures Valid()
      ensures (catalog == old(catalog) && log == old(log))
              || (Handle(old(catalog), r).Commit? && catalog == Next(old(catalog), r)
                  && exists i :: 0 <= i < 4 && log == Append(coding, old(log), info, now[i]))
      ensures out.Done? ==>
        out.revision == log.revision && (log == old(log) <==> Handle(old(catalog), r).Replay?) && !Handle(old(catalog), r).Abort?
      ensures out.Refused? && log != old(log) ==> after == Some(out.error)
      ensures out.Stopped? ==> log == old(log)
      ensures forall i :: 0 <= i < 4 && Clear(attempts[i]) && (forall j :: 0 <= j < i ==> Retried(attempts[j], Handle(old(catalog), r))) ==>
        out == Settled(Handle(old(catalog), r), old(log).revision, after)
      ensures (forall j :: 0 <= j < 4 ==> Retried(attempts[j], Handle(old(catalog), r))) ==>
        out == Refused(Busy) && log == old(log)
    {
      hide Inv, ProducedLog, Append, Handle;
      var last := Busy;
      var attempt := 0;
      while attempt < ATTEMPTS
        invariant 0 <= attempt <= ATTEMPTS && Valid() && catalog == old(catalog) && log == old(log)
        invariant last == Busy
        invariant forall i :: 0 <= i < attempt ==> !Clear(attempts[i])
      {
        var a := attempts[attempt];
        if a.cancelled {
          return Stopped;
        }
        if a.begin.Some? {
          last := a.begin.value;
          attempt := attempt + 1;
          if last != Busy {
            return Refused(last);
          }
          continue;
        }
        match Handle(catalog, r) {
          case Replay(_) => return Done(log.revision);
          case Abort(e) => return Refused(e);
          case Commit(d, _) =>
            if a.commit.None? {
              RequestKeeps(catalog, r);
              AppendIsAccepted(coding, log, info, now[attempt]);
              AppendCounts(coding, log, info, now[attempt]);
              catalog, log := d, Append(coding, log, info, now[attempt]);
              return if after.Some? then Refused(after.value) else Done(log.revision);
            }
            last := a.commit.value;
            attempt := attempt + 1;
            if last != Busy {
              return Refused(last);
            }
        }
      }
      out := Refused(last);
    }

    /** migrateCaseV1ToV2: one more event, and a second migration is refused because the version
        is already recorded. */
    method Migrate(info: Info, now: string) returns (out: Outcome)
      requires Valid()
      modifies this
      ensures Valid()
      ensures if old(schema) == 1
              then out == Done(log.revision) && schema == 2 && log == Append(coding, old(log), info, now)
                   && catalog == old(catalog).(core := Touch(old(catalog).core))
              else out == Refused(Conflict) && schema == old(schema) && log == old(log) && catalog == old(catalog)
    {
      if schema != 1 {
        return Refused(Conflict);
      }
      hide Inv, Extends, ProducedLog, Append;
      TouchingKeeps(catalog);
      AppendIsAccepted(coding, log, info, now);
      AppendCounts(coding, log, info, now);
      schema, catalog, log := 2, catalog.(core := Touch(catalog.core)), Append(coding, log, info, now);
      out := Done(log.revision);
    }
  }

  lemma AppendCounts(k: Coding, log: Log, info: Info, now: string)
    ensures Append(k, log, info, now).revision == log.revision + 1
  {
  }

  lemma TouchingKeeps(c: Catalog)
    requires Inv(c)
    ensures Inv(c.(core := Touch(c.core)))
  {
    var touch := Request(IdempotencyKey("", "", ""), "", TouchCase);
    RequestKeeps(c, touch);
    TouchServed(c);
  }

  lemma TouchServed(c: Catalog)
    ensures Next(c, Request(IdempotencyKey("", "", ""), "", TouchCase)) == c.(core := Touch(c.core))
  {
    assert c.details + map[] == c.details && c.producers + map[] == c.producers;
    assert c.findings + map[] == c.findings && c.cache + map[] == c.cache;
  }

  /** An attempt that nothing disturbs. */
  predicate Clear(a: Attempt) {
    !a.cancelled && a.begin.None? && a.commit.None?
  }

  /** An attempt after which mutate tries again. */
  predicate Retried(a: Attempt, t: Tx<Catalog, Reply>) {
    !a.cancelled && (a.begin == Some(Busy) || (a.begin.None? && t.Commit? && a.commit == Some(Busy)))
  }

  /** What a caller gets from an undisturbed attempt. */
  function Settled(t: Tx<Catalog, Reply>, revision: int, after: Option<Error>): Outcome {
    match t
    case Replay(_) => Done(revision)
    case Abort(e) => Refused(e)
    case Commit(_, _) => if after.Some? then Refused(after.value) else Done(revision + 1)
  }
}
