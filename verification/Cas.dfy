/** Content-addressed storage beside the catalog: any number of writers stage content, link it
    under its digest without replacing, and only then commit rows that name it. A writer may
    stop between any two steps. */
module Cas {
  import opened Common
  import opened Order
  import opened Provenance
  import opened Catalog
  import opened CatalogInvariants
  import Effects

  /** Where a writer is with its current staged file. */
  datatype Phase = Idle | Copying(path: string, content: string) | Staged(path: string, content: string)
                 | Linked(path: string, content: string) | Stopped

  /** published holds digest and size of what the writer has published. */
  datatype Writer = Writer(phase: Phase, published: set<(string, nat)>)

  /** blobs is the final directory, keyed by digest; staging is keyed by path. */
  datatype System = System(cat: Catalog, blobs: map<string, string>, staging: map<string, string>, writers: map<nat, Writer>)

  datatype Step =
    | Create(writer: nat, path: string)
    | Copy(writer: nat, bytes: string)
    | Sync(writer: nat)
    | Link(writer: nat)
    | Unlink(writer: nat)
    | Serve(writer: nat, request: Request)
    | GiveUp(writer: nat)
    | Crash(writer: nat)

  function Phase0(s: System, w: nat): Phase {
    if w in s.writers then s.writers[w].phase else Idle
  }

  function Published(s: System, w: nat): set<(string, nat)> {
    if w in s.writers then s.writers[w].published else {}
  }

  predicate HasFile(p: Phase) {
    p.Copying? || p.Staged? || p.Linked?
  }

  /** Digest and size of the object rows a call would insert. */
  function ObjectsOf(rows: map<Id, Detail>): set<(string, nat)> {
    set id | id in rows && rows[id].ObjectRow? :: (rows[id].digest, rows[id].size)
  }

  function Introduced(c: Catalog, call: Call): set<(string, nat)> {
    if Plan(c, call).Commit? then ObjectsOf(Plan(c, call).state.rows) else {}
  }

  /** Writers commit only objects whose content they have published. */
  predicate Enabled(s: System, step: Step) {
    var p := Phase0(s, step.writer);
    match step
    case Create(_, path) => p.Idle? && path !in s.staging
    case Copy(_, _) => p.Copying?
    case Sync(_) => p.Copying?
    case Link(_) => p.Staged? && p.path in s.staging
    case Unlink(_) => p.Linked?
    case Serve(w, r) => p.Idle? && Introduced(s.cat, r.call) <= Published(s, w)
    case GiveUp(_) => !p.Stopped?
    case Crash(_) => !p.Stopped?
  }

  function Move(s: System, w: nat, p: Phase): System {
    s.(writers := s.writers[w := Writer(p, Published(s, w))])
  }

  /** The staged file is removed and the writer may use the digest. */
  function Publish(s: System, w: nat, digest: string, size: nat, path: string): System {
    s.(staging := s.staging - {path}, writers := s.writers[w := Writer(Idle, Published(s, w) + {(digest, size)})])
  }

  function Drop(s: System, w: nat): System {
    var p := Phase0(s, w);
    Move(if HasFile(p) then s.(staging := s.staging - {p.path}) else s, w, Stopped)
  }

  /** os.Link fails if the name exists; then the file there must have the digest and size. */
  function LinkBlob(h: string -> string, s: System, w: nat, path: string, content: string): System
    requires path in s.staging
  {
    var digest := h(content);
    if digest !in s.blobs then Move(s.(blobs := s.blobs[digest := s.staging[path]]), w, Linked(path, content))
    else if |s.blobs[digest]| == |content| && h(s.blobs[digest]) == digest then Publish(s, w, digest, |content|, path)
    else Drop(s, w)
  }

  function Take(h: string -> string, s: System, step: Step): System {
    var w := step.writer;
    var p := Phase0(s, w);
    if !Enabled(s, step) then s
    else match step
    case Create(_, path) => Move(s.(staging := s.staging[path := ""]), w, Copying(path, ""))
    case Copy(_, bytes) => Move(s.(staging := s.staging[p.path := p.content + bytes]), w, Copying(p.path, p.content + bytes))
    case Sync(_) => Move(s, w, Staged(p.path, p.content))
    case Link(_) => LinkBlob(h, s, w, p.path, p.content)
    case Unlink(_) => Publish(s, w, h(p.content), |p.content|, p.path)
    case Serve(_, r) => s.(cat := Next(s.cat, r))
    case GiveUp(_) => Drop(s, w)
    case Crash(_) => Move(s, w, Stopped)
  }

  function Run(h: string -> string, s: System, steps: seq<Step>): System
    decreases |steps|
  {
    if steps == [] then s else Run(h, Take(h, s, steps[0]), steps[1..])
  }

  // ---- Invariant ----

  ghost predicate HasBlob(blobs: map<string, string>, digest: string, size: nat) {
    digest in blobs && |blobs[digest]| == size
  }

  ghost predicate NamedByHash(h: string -> string, blobs: map<string, string>) {
    forall d :: d in blobs ==> h(blobs[d]) == d
  }

  /** Every object row names a present blob of its size. */
  ghost predicate Backed(c: Catalog, blobs: map<string, string>) {
    forall id :: id in c.details && c.details[id].ObjectRow? ==> HasBlob(blobs, c.details[id].digest, c.details[id].size)
  }

  ghost predicate WriterOk(h: string -> string, s: System, w: nat)
    requires w in s.writers
  {
    var p := s.writers[w].phase;
    && (HasFile(p) ==> p.path in s.staging && s.staging[p.path] == p.content)
    && (p.Linked? ==> HasBlob(s.blobs, h(p.content), |p.content|))
    && (forall b :: b in s.writers[w].published ==> HasBlob(s.blobs, b.0, b.1))
  }

  /** No two writers stage to one path. */
  ghost predicate PathsApart(s: System) {
    forall v, w :: v in s.writers && w in s.writers && v != w && HasFile(s.writers[v].phase) && HasFile(s.writers[w].phase) ==>
      s.writers[v].phase.path != s.writers[w].phase.path
  }

  ghost predicate Safe(h: string -> string, s: System) {
    && Inv(s.cat) && NamedByHash(h, s.blobs) && Backed(s.cat, s.blobs) && PathsApart(s)
    && forall w :: w in s.writers ==> WriterOk(h, s, w)
  }

  /** Blobs are added, never removed or replaced. */
  ghost predicate Kept(s: System, t: System) {
    forall d :: d in s.blobs ==> d in t.blobs && t.blobs[d] == s.blobs[d]
  }

  lemma ServeKeeps(h: string -> string, s: System, w: nat, r: Request)
    requires Safe(h, s) && Enabled(s, Serve(w, r))
    ensures Safe(h, s.(cat := Next(s.cat, r))) && Extends(s.cat, Next(s.cat, r))
  {
    hide Inv, Extends, Plan, Handle, Next;
    RequestKeeps(s.cat, r);
    var t := s.(cat := Next(s.cat, r));
    forall v | v in t.writers
      ensures WriterOk(h, t, v)
    {
      assert WriterOk(h, s, v);
    }
    assert forall b :: b in Published(s, w) ==> HasBlob(s.blobs, b.0, b.1) by {
      assert w in s.writers ==> WriterOk(h, s, w);
    }
    if Handle(s.cat, r).Commit? {
      CommittedRequest(s.cat, r);
      ServedRowsAreBacked(s.cat, Next(s.cat, r), r.call, s.blobs);
    }
  }

  lemma ServedRowsAreBacked(c: Catalog, d: Catalog, call: Call, blobs: map<string, string>)
    requires Backed(c, blobs) && Plan(c, call).Commit? && d.details == c.details + Plan(c, call).state.rows
    requires forall b :: b in Introduced(c, call) ==> HasBlob(blobs, b.0, b.1)
    ensures Backed(d, blobs)
  {
    hide Plan;
    var rows := Plan(c, call).state.rows;
    forall id | id in d.details && d.details[id].ObjectRow?
      ensures HasBlob(blobs, d.details[id].digest, d.details[id].size)
    {
      if id in rows {
        assert (rows[id].digest, rows[id].size) in Introduced(c, call);
      }
    }
  }

  /** A step of one writer that leaves the catalog, the other writers and their files alone. */
  ghost predicate FileStep(h: string -> string, s: System, t: System, w: nat) {
    && t.cat == s.cat && w in t.writers && t.writers.Keys == s.writers.Keys + {w}
    && (forall v :: v in s.writers && v != w ==> t.writers[v] == s.writers[v])
    && NamedByHash(h, t.blobs) && Kept(s, t) && WriterOk(h, t, w)
    && forall v :: v in s.writers && v != w && HasFile(s.writers[v].phase) ==>
         var path := s.writers[v].phase.path;
         path in s.staging && path in t.staging && t.staging[path] == s.staging[path]
         && (HasFile(t.writers[w].phase) ==> t.writers[w].phase.path != path)
  }

  lemma FileStepKeeps(h: string -> string, s: System, t: System, w: nat)
    requires Safe(h, s) && FilesPresent(s) && FileStep(h, s, t, w)
    ensures Safe(h, t)
  {
    hide Inv;
    forall v | v in t.writers
      ensures WriterOk(h, t, v)
    {
      if v != w {
        assert WriterOk(h, s, v);
      }
    }
  }

  ghost predicate FilesPresent(s: System) {
    forall v :: v in s.writers && HasFile(s.writers[v].phase) ==> s.writers[v].phase.path in s.staging
  }

  lemma WritersHaveFiles(h: string -> string, s: System)
    requires Safe(h, s)
    ensures FilesPresent(s)
  {
    hide Inv;
    forall v | v in s.writers && HasFile(s.writers[v].phase)
      ensures s.writers[v].phase.path in s.staging
    {
      assert WriterOk(h, s, v);
    }
  }

  /** Steps of a writer on its own staged file. */
  lemma StagingStep(h: string -> string, s: System, step: Step)
    requires Safe(h, s) && FilesPresent(s) && Enabled(s, step) && (step.Create? || step.Copy? || step.Sync?)
    ensures FileStep(h, s, Take(h, s, step), step.writer)
  {
    hide Inv, Backed, Next, Introduced, LinkBlob, Publish;
    assert step.writer in s.writers ==> WriterOk(h, s, step.writer);
  }

  lemma StoppingStep(h: string -> string, s: System, step: Step)
    requires Safe(h, s) && FilesPresent(s) && Enabled(s, step) && (step.GiveUp? || step.Crash?)
    ensures FileStep(h, s, Take(h, s, step), step.writer)
  {
    hide Inv, Backed, Next, Introduced, LinkBlob, Publish;
    assert step.writer in s.writers ==> WriterOk(h, s, step.writer);
  }

  lemma PublishStep(h: string -> string, s: System, w: nat, digest: string, size: nat)
    requires Safe(h, s) && FilesPresent(s) && w in s.writers && HasFile(s.writers[w].phase) && HasBlob(s.blobs, digest, size)
    ensures FileStep(h, s, Publish(s, w, digest, size, s.writers[w].phase.path), w)
  {
    hide Inv, Backed;
    assert WriterOk(h, s, w);
  }

  lemma LinkStep(h: string -> string, s: System, w: nat)
    requires Safe(h, s) && FilesPresent(s) && w in s.writers && s.writers[w].phase.Staged?
    ensures s.writers[w].phase.path in s.staging
    ensures FileStep(h, s, LinkBlob(h, s, w, s.writers[w].phase.path, s.writers[w].phase.content), w)
  {
    hide Inv, Backed;
    assert WriterOk(h, s, w);
    var content := s.writers[w].phase.content;
    if HasBlob(s.blobs, h(content), |content|) {
      PublishStep(h, s, w, h(content), |content|);
    }
  }

  lemma TakeKeeps(h: string -> string, s: System, step: Step)
    requires Safe(h, s)
    ensures Safe(h, Take(h, s, step)) && Kept(s, Take(h, s, step)) && Extends(s.cat, Take(h, s, step).cat)
  {
    hide Inv, Extends, Safe, FileStep, Introduced, Next, LinkBlob, Publish, Drop;
    CatalogIsSound(h, s);
    ExtendsReflexive(s.cat);
    WritersHaveFiles(h, s);
    var w, t := step.writer, Take(h, s, step);
    if Enabled(s, step) {
      match step {
        case Serve(_, r) => ServeKeeps(h, s, w, r);
        case Link(_) => LinkStep(h, s, w);
        case Unlink(_) =>
          var p := s.writers[w].phase;
          LinkedHasBlob(h, s, w);
          PublishStep(h, s, w, h(p.content), |p.content|);
        case Create(_, _) => StagingStep(h, s, step);
        case Copy(_, _) => StagingStep(h, s, step);
        case Sync(_) => StagingStep(h, s, step);
        case GiveUp(_) => StoppingStep(h, s, step);
        case Crash(_) => StoppingStep(h, s, step);
      }
      if !step.Serve? {
        FileStepKeeps(h, s, t, w);
        FileStepFrame(h, s, t, w);
      }
    }
  }

  lemma CatalogIsSound(h: string -> string, s: System)
    requires Safe(h, s)
    ensures Inv(s.cat)
  {
  }

  lemma LinkedHasBlob(h: string -> string, s: System, w: nat)
    requires Safe(h, s) && w in s.writers && s.writers[w].phase.Linked?
    ensures HasBlob(s.blobs, h(s.writers[w].phase.content), |s.writers[w].phase.content|)
  {
    hide Inv;
    assert WriterOk(h, s, w);
  }

  lemma FileStepFrame(h: string -> string, s: System, t: System, w: nat)
    requires FileStep(h, s, t, w)
    ensures t.cat == s.cat && Kept(s, t)
  {
  }

  /** A new case with an empty store. */
  function NewSystem(who: Actor, a: Id): System {
    System(NewCase(who, a), map[], map[], map[])
  }

  /** Whatever the writers do and wherever they stop, every committed object has a present blob
      of its size whose content hashes to its digest, and no blob is ever replaced. */
  lemma {:induction false} RunIsSafe(h: string -> string, s: System, steps: seq<Step>)
    requires Safe(h, s)
    ensures Safe(h, Run(h, s, steps)) && Kept(s, Run(h, s, steps)) && Extends(s.cat, Run(h, s, steps).cat)
    decreases |steps|
  {
    hide Safe, Extends, Take;
    if steps == [] {
      ExtendsReflexive(s.cat);
    } else {
      TakeKeeps(h, s, steps[0]);
      var t := Take(h, s, steps[0]);
      RunIsSafe(h, t, steps[1..]);
      ExtendsTransitive(s.cat, t.cat, Run(h, t, steps[1..]).cat);
    }
  }

  lemma CommittedObjectsAreStored(h: string -> string, who: Actor, a: Id, steps: seq<Step>, id: Id)
    requires id in Run(h, NewSystem(who, a), steps).cat.details && Run(h, NewSystem(who, a), steps).cat.details[id].ObjectRow?
    ensures var s := Run(h, NewSystem(who, a), steps);
            var row := s.cat.details[id];
            row.digest in s.blobs && |s.blobs[row.digest]| == row.size && h(s.blobs[row.digest]) == row.digest
  {
    NewCaseInv(who, a);
    RunIsSafe(h, NewSystem(who, a), steps);
    hide Run, Inv;
  }

  /** Objects of one digest have one size, that of the blob they share, so the object-blob-size
      check of Verify never reports. */
  lemma SameDigestSameSize(h: string -> string, who: Actor, a: Id, steps: seq<Step>, x: Id, y: Id)
    requires var c := Run(h, NewSystem(who, a), steps).cat;
             x in c.details && c.details[x].ObjectRow? && y in c.details && c.details[y].ObjectRow?
             && c.details[x].digest == c.details[y].digest
    ensures var c := Run(h, NewSystem(who, a), steps).cat; c.details[x].size == c.details[y].size
  {
    hide Run;
    CommittedObjectsAreStored(h, who, a, steps, x);
    CommittedObjectsAreStored(h, who, a, steps, y);
  }

  // ---- Staged files ----

  ghost predicate Owns(s: System, w: nat, path: string) {
    w in s.writers && HasFile(s.writers[w].phase) && s.writers[w].phase.path == path
  }

  /** Every staged file is that of a writer at work. */
  ghost predicate NoLeftovers(s: System) {
    forall p :: p in s.staging ==> exists w :: Owns(s, w, p)
  }

  lemma TakeLeavesNone(h: string -> string, s: System, step: Step)
    requires NoLeftovers(s) && !step.Crash?
    ensures NoLeftovers(Take(h, s, step))
  {
    hide Next, Introduced;
    var w, t := step.writer, Take(h, s, step);
    forall p | p in t.staging
      ensures exists v :: Owns(t, v, p)
    {
      if p in s.staging {
        var v :| Owns(s, v, p);
        assert Owns(t, v, p);
      } else {
        assert Owns(t, w, p);
      }
    }
  }

  /** As long as no writer crashes, no file is left in the staging directory but those of the
      writers at work, whether they succeed or give up. */
  lemma {:induction false} RunLeavesNone(h: string -> string, s: System, steps: seq<Step>)
    requires NoLeftovers(s) && forall i :: 0 <= i < |steps| ==> !steps[i].Crash?
    ensures NoLeftovers(Run(h, s, steps))
    decreases |steps|
  {
    hide NoLeftovers, Take;
    if steps != [] {
      TakeLeavesNone(h, s, steps[0]);
      RunLeavesNone(h, Take(h, s, steps[0]), steps[1..]);
    }
  }

  /** A writer that finds a blob under its digest, in whatever state the store is, never touches
      it: it publishes if the blob has its size and hash, and gives up otherwise. */
  lemma FoundBlobIsChecked(h: string -> string, s: System, w: nat)
    requires Phase0(s, w).Staged? && Phase0(s, w).path in s.staging && h(Phase0(s, w).content) in s.blobs
    ensures var content, t := Phase0(s, w).content, Take(h, s, Link(w));
            var digest := h(content);
            && t.blobs == s.blobs && t.cat == s.cat && t.staging == s.staging - {Phase0(s, w).path}
            && (if |s.blobs[digest]| == |content| && h(s.blobs[digest]) == digest
                then Phase0(t, w) == Idle && Published(t, w) == Published(s, w) + {(digest, |content|)}
                else Phase0(t, w) == Stopped && Published(t, w) == Published(s, w))
  {
    assert Enabled(s, Link(w));
    hide Next, Introduced;
  }

  /** Writers that race to publish the same content share one blob: the second finds the first
      one's file, checks it, and publishes under the same digest without touching it. */
  lemma RacersShareBlob(h: string -> string, s: System, v: nat, w: nat, between: seq<Step>)
    requires Safe(h, s) && v in s.writers && s.writers[v].phase.Staged?
    requires var t := Run(h, Take(h, s, Link(v)), between);
             w in t.writers && t.writers[w].phase.Staged? && t.writers[w].phase.content == s.writers[v].phase.content
    requires h(s.writers[v].phase.content) !in s.blobs
    ensures var content := s.writers[v].phase.content;
            var t := Run(h, Take(h, s, Link(v)), between);
            var u := Take(h, t, Link(w));
            u.blobs == t.blobs && h(content) in t.blobs && t.blobs[h(content)] == content
            && (h(content), |content|) in Published(u, w)
  {
    hide Run, Inv, Extends, Backed;
    assert WriterOk(h, s, v);
    TakeKeeps(h, s, Link(v));
    var first := Take(h, s, Link(v));
    RunIsSafe(h, first, between);
    var t := Run(h, first, between);
    assert WriterOk(h, t, w);
  }

  // ---- What a writer publishes is what it copied ----

  /** The bytes a writer copied since it last created a staged file, along a run; sofar are those
      before it. */
  ghost function CopiedBytes(h: string -> string, s: System, steps: seq<Step>, w: nat, sofar: string): string
    decreases |steps|
  {
    if steps == [] then sofar
    else CopiedBytes(h, Take(h, s, steps[0]), steps[1..], w, CopiedOnce(s, steps[0], w, sofar))
  }

  ghost function CopiedOnce(s: System, step: Step, w: nat, sofar: string): string {
    if !Enabled(s, step) || step.writer != w then sofar
    else if step.Create? then ""
    else if step.Copy? then sofar + step.bytes
    else sofar
  }

  /** What the writer has staged, if it has a file. */
  ghost predicate Stages(s: System, w: nat, bytes: string) {
    HasFile(Phase0(s, w)) ==> Phase0(s, w).content == bytes
  }

  /** In every interleaving the file a writer has staged holds exactly the bytes it copied since
      it created the file, in order. */
  lemma {:induction false} StagedIsCopied(h: string -> string, s: System, steps: seq<Step>, w: nat, sofar: string)
    requires Safe(h, s) && Stages(s, w, sofar)
    ensures var t, all := Run(h, s, steps), CopiedBytes(h, s, steps, w, sofar);
            Stages(t, w, all) && (HasFile(Phase0(t, w)) ==> Phase0(t, w).path in t.staging && t.staging[Phase0(t, w).path] == all)
    decreases |steps|
  {
    hide Safe, Take, Enabled;
    if steps == [] {
      if HasFile(Phase0(s, w)) {
        StagedFileHolds(h, s, w);
      }
    } else {
      TakeKeeps(h, s, steps[0]);
      StagesAfter(h, s, steps[0], w, sofar);
      StagedIsCopied(h, Take(h, s, steps[0]), steps[1..], w, CopiedOnce(s, steps[0], w, sofar));
    }
  }

  lemma StagedFileHolds(h: string -> string, s: System, w: nat)
    requires Safe(h, s) && HasFile(Phase0(s, w))
    ensures w in s.writers && Phase0(s, w).path in s.staging && s.staging[Phase0(s, w).path] == Phase0(s, w).content
  {
    hide Inv, Backed;
    assert WriterOk(h, s, w);
  }

  lemma StagesAfter(h: string -> string, s: System, step: Step, w: nat, sofar: string)
    requires Stages(s, w, sofar)
    ensures Stages(Take(h, s, step), w, CopiedOnce(s, step, w, sofar))
  {
    hide Next, Introduced;
  }

  /** d is published by w, with its size, under the hash of its bytes. */
  ghost predicate HasPublished(h: string -> string, s: System, w: nat, bytes: string) {
    && (h(bytes), |bytes|) in Published(s, w)
    && h(bytes) in s.blobs && |s.blobs[h(bytes)]| == |bytes| && h(s.blobs[h(bytes)]) == h(bytes)
  }

  /** When a writer removes its staged file after a link, or finds the blob there and checks it,
      it has published the bytes it copied, whatever the others did meanwhile. */
  lemma PublishesWhatItCopied(h: string -> string, s: System, steps: seq<Step>, w: nat, last: Step)
    requires Safe(h, s) && !HasFile(Phase0(s, w)) && last.writer == w && (last.Link? || last.Unlink?)
    requires var t := Run(h, s, steps); Enabled(t, last) && Phase0(Take(h, t, last), w).Idle?
    ensures HasPublished(h, Take(h, Run(h, s, steps), last), w, CopiedBytes(h, s, steps, w, ""))
  {
    hide Run, CopiedBytes, Safe, Extends;
    StagedIsCopied(h, s, steps, w, "");
    RunIsSafe(h, s, steps);
    PublishesPhase(h, Run(h, s, steps), w, last);
  }

  lemma PublishesPhase(h: string -> string, t: System, w: nat, last: Step)
    requires Safe(h, t) && last.writer == w && (last.Link? || last.Unlink?) && Enabled(t, last) && Phase0(Take(h, t, last), w).Idle?
    ensures HasFile(Phase0(t, w)) && HasPublished(h, Take(h, t, last), w, Phase0(t, w).content)
  {
    hide Inv, Backed, Next, Introduced, CopiedBytes;
    assert WriterOk(h, t, w);
  }

  /** The steps that publish the given pieces as one file. */
  function PublishSteps(w: nat, path: string, pieces: seq<string>): seq<Step> {
    [Create(w, path)] + seq(|pieces|, i requires 0 <= i < |pieces| => Copy(w, pieces[i])) + [Sync(w), Link(w), Unlink(w)]
  }

  function Joined(pieces: seq<string>): string {
    if pieces == [] then "" else pieces[0] + Joined(pieces[1..])
  }

  /** A writer alone on an empty store that takes them leaves one blob, the pieces joined, under
      their hash, and no staged file. */
  lemma AloneItPublishesAll(h: string -> string, who: Actor, a: Id, w: nat, path: string, pieces: seq<string>)
    ensures var t, all := Run(h, NewSystem(who, a), PublishSteps(w, path, pieces)), Joined(pieces);
            t.blobs == map[h(all) := all] && t.staging == map[] && t.cat == NewCase(who, a)
            && t.writers == map[w := Writer(Idle, {(h(all), |all|)})]
  {
    hide NewCase, Next, Introduced;
    var s := NewSystem(who, a);
    var copies := seq(|pieces|, i requires 0 <= i < |pieces| => Copy(w, pieces[i]));
    var tail := [Sync(w), Link(w), Unlink(w)];
    var steps := PublishSteps(w, path, pieces);
    assert steps == [Create(w, path)] + (copies + tail);
    assert steps[1..] == copies + tail;
    var s1 := Take(h, s, Create(w, path));
    CopiesAppend(h, s1, w, path, "", pieces, tail);
    var all := Joined(pieces);
    assert "" + all == all;
    Finishes(h, who, a, w, path, all);
  }

  /** The state of a lone writer in the middle of copying. */
  function LoneCopy(cat: Catalog, w: nat, path: string, content: string): System {
    System(cat, map[], map[path := content], map[w := Writer(Copying(path, content), {})])
  }

  lemma {:induction false} CopiesAppend(h: string -> string, s: System, w: nat, path: string, sofar: string, pieces: seq<string>, tail: seq<Step>)
    requires s == LoneCopy(s.cat, w, path, sofar)
    ensures Run(h, s, seq(|pieces|, i requires 0 <= i < |pieces| => Copy(w, pieces[i])) + tail)
            == Run(h, LoneCopy(s.cat, w, path, sofar + Joined(pieces)), tail)
    decreases |pieces|
  {
    hide Next, Introduced;
    var copies := seq(|pieces|, i requires 0 <= i < |pieces| => Copy(w, pieces[i]));
    if pieces == [] {
      assert copies + tail == tail && sofar + "" == sofar;
    } else {
      var rest := pieces[1..];
      var others := seq(|rest|, i requires 0 <= i < |rest| => Copy(w, rest[i]));
      assert copies + tail == [Copy(w, pieces[0])] + (others + tail);
      assert (copies + tail)[1..] == others + tail;
      var t := Take(h, s, Copy(w, pieces[0]));
      assert t == LoneCopy(s.cat, w, path, sofar + pieces[0]);
      CopiesAppend(h, t, w, path, sofar + pieces[0], rest, tail);
      assert sofar + pieces[0] + Joined(rest) == sofar + (pieces[0] + Joined(rest));
    }
  }

  lemma Finishes(h: string -> string, who: Actor, a: Id, w: nat, path: string, all: string)
    ensures Run(h, LoneCopy(NewCase(who, a), w, path, all), [Sync(w), Link(w), Unlink(w)])
            == System(NewCase(who, a), map[h(all) := all], map[], map[w := Writer(Idle, {(h(all), |all|)})])
  {
    hide NewCase, Next, Introduced;
    var cat := NewCase(who, a);
    var s, name := LoneCopy(cat, w, path, all), h(all);
    var s1 := System(cat, map[], map[path := all], map[w := Writer(Staged(path, all), {})]);
    var s2 := System(cat, map[name := all], map[path := all], map[w := Writer(Linked(path, all), {})]);
    var s3 := System(cat, map[name := all], map[], map[w := Writer(Idle, {(name, |all|)})]);
    assert Take(h, s, Sync(w)) == s1;
    assert Take(h, s1, Link(w)) == s2;
    assert Take(h, s2, Unlink(w)) == s3 by {
      assert map[path := all] - {path} == map[];
      assert Published(s2, w) + {(name, |all|)} == {(name, |all|)};
      assert Take(h, s2, Unlink(w)).writers == s3.writers;
    }
    hide Take;
    OneStep(h, s, Sync(w), [Link(w), Unlink(w)]);
    OneStep(h, s1, Link(w), [Unlink(w)]);
    OneStep(h, s2, Unlink(w), []);
    assert [Sync(w)] + [Link(w), Unlink(w)] == [Sync(w), Link(w), Unlink(w)];
    assert [Link(w)] + [Unlink(w)] == [Link(w), Unlink(w)];
    assert [Unlink(w)] + [] == [Unlink(w)];
  }

  lemma OneStep(h: string -> string, s: System, step: Step, rest: seq<Step>)
    ensures Run(h, s, [step] + rest) == Run(h, Take(h, s, step), rest)
  {
    assert ([step] + rest)[1..] == rest;
  }

  // ---- Orphans ----

  function Referenced(c: Catalog): set<string> {
    set id | id in c.details && c.details[id].ObjectRow? :: c.details[id].digest
  }

  /** What InspectRecovery may report when it reads the object rows at one time and then walks
      the blob files while s steps on to t: every file that was there when the walk began, and
      some of those that appeared during it. */
  ghost predicate OrphanReport(rows: Catalog, s: System, t: System, report: set<string>) {
    s.blobs.Keys - Referenced(rows) <= report <= t.blobs.Keys - Referenced(rows)
  }

  /** The report holds every blob that was there before the walk and that nothing references
      after it, and nothing that was referenced when the rows were read. */
  lemma ReportSandwich(h: string -> string, s: System, before: seq<Step>, during: seq<Step>, report: set<string>)
    requires Safe(h, s)
    requires var m := Run(h, s, before); OrphanReport(s.cat, m, Run(h, m, during), report)
    ensures var m := Run(h, s, before);
            var t := Run(h, m, during);
            m.blobs.Keys - Referenced(t.cat) <= report <= t.blobs.Keys - Referenced(s.cat)
  {
    hide Run, Safe, Extends, Referenced;
    ReadsInOrder(h, s, before, during);
  }

  /** The tables and the blobs only grow from the read of the rows over the walk to its end. */
  lemma ReadsInOrder(h: string -> string, s: System, before: seq<Step>, during: seq<Step>)
    requires Safe(h, s)
    ensures var m := Run(h, s, before);
            var t := Run(h, m, during);
            && s.blobs.Keys <= m.blobs.Keys <= t.blobs.Keys && Referenced(s.cat) <= Referenced(t.cat)
            && Referenced(s.cat) <= s.blobs.Keys && Referenced(t.cat) <= t.blobs.Keys
  {
    hide Run, Safe, Extends;
    RunIsSafe(h, s, before);
    var m := Run(h, s, before);
    RunIsSafe(h, m, during);
    var t := Run(h, m, during);
    ExtendsTransitive(s.cat, m.cat, t.cat);
    ReferencesGrow(s.cat, t.cat);
    ReferencedArePresent(h, s);
    ReferencedArePresent(h, t);
  }

  lemma ReferencedArePresent(h: string -> string, s: System)
    requires Safe(h, s)
    ensures Referenced(s.cat) <= s.blobs.Keys
  {
    hide Inv;
  }

  /** Whatever the walk saw, the report is the unreferenced blobs of its end, if and only if
      nothing was linked during the walk and nothing newly referenced since the rows were read. */
  lemma ReportsAreExactIff(h: string -> string, s: System, before: seq<Step>, during: seq<Step>)
    requires Safe(h, s)
    ensures var m := Run(h, s, before);
            var t := Run(h, m, during);
            (forall report :: OrphanReport(s.cat, m, t, report) ==> report == t.blobs.Keys - Referenced(t.cat))
            <==> t.blobs.Keys == m.blobs.Keys && Referenced(t.cat) == Referenced(s.cat)
  {
    hide Run, Safe, Referenced;
    ReadsInOrder(h, s, before, during);
    var m := Run(h, s, before);
    var t := Run(h, m, during);
    var least, most := m.blobs.Keys - Referenced(s.cat), t.blobs.Keys - Referenced(s.cat);
    assert OrphanReport(s.cat, m, t, least) && OrphanReport(s.cat, m, t, most);
    if least == most == t.blobs.Keys - Referenced(t.cat) {
      forall d | d in t.blobs.Keys
        ensures d in m.blobs.Keys && (d in Referenced(t.cat) ==> d in Referenced(s.cat))
      {
        assert d in most || d in Referenced(s.cat);
      }
    }
  }

  lemma ReferencesGrow(c: Catalog, d: Catalog)
    requires Extends(c, d)
    ensures Referenced(c) <= Referenced(d)
  {
    hide CoreExtends;
  }

  /** The report can be stale: reading the rows, then a commit, then the walk names a blob as
      an orphan that a committed object references. */
  lemma CommitBetweenReadsIsMisreported(h: string -> string, s: System, w: nat, a: Id, id: Id, b: Birth, digest: string, size: nat)
    requires Safe(h, s) && w in s.writers && s.writers[w].phase.Idle? && (digest, size) in s.writers[w].published
    requires digest !in Referenced(s.cat) && Accepts(s.cat, a) && id !in s.cat.core.entities && b.kind == Kind.Object
    ensures var m := Run(h, s, [Serve(w, CaptureRequest(a, id, b, digest, size))]);
            var report := m.blobs.Keys - Referenced(s.cat);
            OrphanReport(s.cat, m, m, report) && digest in report && digest in Referenced(m.cat)
  {
    var r := CaptureRequest(a, id, b, digest, size);
    CaptureCommits(s.cat, a, id, b, digest, size);
    PublishedIsStored(h, s, w, digest, size);
    hide Safe, Introduced, Referenced, Next, Run, Accepts, CaptureRequest;
    ServedOnce(h, s, w, r);
  }

  lemma ServedOnce(h: string -> string, s: System, w: nat, r: Request)
    requires w in s.writers && s.writers[w].phase.Idle? && Introduced(s.cat, r.call) <= s.writers[w].published
    ensures Run(h, s, [Serve(w, r)]) == s.(cat := Next(s.cat, r))
  {
    hide Introduced, Next;
    var steps := [Serve(w, r)];
    assert steps[1..] == [];
    assert Run(h, s, steps) == Take(h, s, steps[0]);
    assert Enabled(s, steps[0]);
  }

  lemma PublishedIsStored(h: string -> string, s: System, w: nat, digest: string, size: nat)
    requires Safe(h, s) && w in s.writers && (digest, size) in s.writers[w].published
    ensures digest in s.blobs
  {
    hide Inv, NamedByHash, Backed, PathsApart;
    assert WriterOk(h, s, w);
  }

  predicate Accepts(c: Catalog, a: Id) {
    a in c.core.activities && c.core.activities[a].state.Running?
  }

  function CaptureRequest(a: Id, id: Id, b: Birth, digest: string, size: nat): Request {
    Request(IdempotencyKey("", "", ""), "", Capture(a, id, b, digest, size, ""))
  }

  lemma CaptureCommits(c: Catalog, a: Id, id: Id, b: Birth, digest: string, size: nat)
    requires Accepts(c, a) && id !in c.core.entities && b.kind == Kind.Object
    ensures var r := CaptureRequest(a, id, b, digest, size);
            Introduced(c, r.call) == {(digest, size)} && digest in Referenced(Next(c, r))
  {
    var r := CaptureRequest(a, id, b, digest, size);
    CaptureIntroduces(c, r.call, digest, size);
    Effects.EmissionCommitsIff(c, r);
    var row := Effects.EmissionEffect(c, r);
    hide Plan, Next, Handle, Introduced, Effects.Emitted;
    assert row.detail == ObjectRow(digest, size, "");
    assert id in Next(c, r).details && Next(c, r).details[id] == ObjectRow(digest, size, "");
  }

  lemma CaptureIntroduces(c: Catalog, call: Call, digest: string, size: nat)
    requires call.Capture? && call.birth.kind == Kind.Object && call.digest == digest && call.size == size
    ensures Introduced(c, call) == {(digest, size)}
  {
    var rows := Plan(c, call).state.rows;
    assert rows == map[call.id := ObjectRow(digest, size, call.path)];
    hide Plan;
    assert call.id in rows;
  }
}
