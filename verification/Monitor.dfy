/** The activity handle: a monitor that counts captures in flight and lets one thread finish
    the activity once they have ended. */
module Monitor {
  import opened Common
  import opened Provenance

  /** The fields guarded by the handle's mutex. */
  datatype Fields = Fields(finishing: bool, terminal: bool, captures: int)

  // ---- Critical sections as functions of the fields ----

  datatype Entry = Refused(error: Error) | AlreadyDone | Wait | Proceed

  function StartCaptureSpec(f: Fields): (Fields, bool) {
    if f.finishing || f.terminal then (f, false) else (f.(captures := f.captures + 1), true)
  }

  function EndCaptureSpec(f: Fields): Fields {
    f.(captures := f.captures - 1)
  }

  function EnterFinishSpec(f: Fields): (Fields, Entry) {
    if f.terminal then (f, AlreadyDone)
    else if f.finishing then (f, Refused(Conflict))
    else (f.(finishing := true), if f.captures > 0 then Wait else Proceed)
  }

  /** One turn of the waiting loop; a cancelled caller gives the finish up. */
  function WakeSpec(f: Fields, cancelled: bool): (Fields, Entry) {
    if f.captures <= 0 then (f, Proceed)
    else if cancelled then (f.(finishing := false), Refused(Invalid))
    else (f, Wait)
  }

  function LeaveFinishSpec(f: Fields, success: bool): Fields {
    f.(terminal := f.terminal || success, finishing := false)
  }

  /** The handle; each method is one section under the mutex. The ghost fields say which threads
      hold an accepted capture and which thread has claimed the finish. */
  class Handle {
    var finishing: bool
    var terminal: bool
    var captures: int
    ghost var inFlight: set<nat>
    ghost var finisher: Option<nat>

    function State(): Fields
      reads this
    {
      Fields(finishing, terminal, captures)
    }

    /** The counter counts the captures in flight, the flag says that somebody is finishing, and
        a terminal handle has nothing in flight. */
    ghost predicate Valid()
      reads this
    {
      && captures == |inFlight|
      && (finishing <==> finisher.Some?)
      && (finisher.Some? ==> finisher.value !in inFlight)
      && (terminal ==> inFlight == {})
    }

    ghost predicate Uninvolved(t: nat)
      reads this
    {
      t !in inFlight && finisher != Some(t)
    }

    constructor ()
      ensures Valid() && State() == Fields(false, false, 0) && inFlight == {} && finisher == None
    {
      finishing, terminal, captures := false, false, 0;
      inFlight, finisher := {}, None;
    }

    method StartCapture(ghost t: nat) returns (ok: bool)
      requires Valid() && Uninvolved(t)
      modifies this
      ensures Valid() && (State(), ok) == StartCaptureSpec(old(State()))
      ensures ok <==> old(finisher) == None && !terminal
      ensures inFlight == (if ok then old(inFlight) + {t} else old(inFlight))
      ensures finisher == old(finisher) && terminal == old(terminal)
    {
      if finishing || terminal {
        return false;
      }
      captures := captures + 1;
      inFlight := inFlight + {t};
      ok := true;
    }

    method EndCapture(ghost t: nat)
      requires Valid() && t in inFlight
      modifies this
      ensures Valid() && State() == EndCaptureSpec(old(State()))
      ensures inFlight == old(inFlight) - {t} && finisher == old(finisher) && terminal == old(terminal)
    {
      captures := captures - 1;
      inFlight := inFlight - {t};
    }

    method EnterFinish(ghost t: nat) returns (e: Entry)
      requires Valid() && Uninvolved(t)
      modifies this
      ensures Valid() && (State(), e) == EnterFinishSpec(old(State()))
      ensures e == AlreadyDone <==> terminal
      ensures e.Refused? <==> !terminal && old(finisher).Some?
      ensures e.Proceed? ==> inFlight == {}
      ensures e.Wait? ==> inFlight != {}
      ensures finisher == (if e.Wait? || e.Proceed? then Some(t) else old(finisher))
      ensures inFlight == old(inFlight) && terminal == old(terminal)
    {
      if terminal {
        return AlreadyDone;
      }
      if finishing {
        return Refused(Conflict);
      }
      finishing := true;
      finisher := Some(t);
      e := if captures > 0 then Wait else Proceed;
    }

    method Wake(ghost t: nat, cancelled: bool) returns (e: Entry)
      requires Valid() && finisher == Some(t)
      modifies this
      ensures Valid() && (State(), e) == WakeSpec(old(State()), cancelled)
      ensures e.Proceed? <==> inFlight == {}
      ensures e.Refused? <==> inFlight != {} && cancelled
      ensures finisher == (if e.Refused? then None else Some(t))
      ensures inFlight == old(inFlight) && terminal == old(terminal)
    {
      if captures > 0 {
        if cancelled {
          finishing := false;
          finisher := None;
          return Refused(Invalid);
        }
        return Wait;
      }
      e := Proceed;
    }

    method LeaveFinish(ghost t: nat, success: bool)
      requires Valid() && finisher == Some(t) && inFlight == {}
      modifies this
      ensures Valid() && State() == LeaveFinishSpec(old(State()), success)
      ensures finisher == None && inFlight == {} && terminal == (old(terminal) || success)
    {
      if success {
        terminal := true;
      }
      finishing := false;
      finisher := None;
    }
  }

  // ---- Threads ----

  /** A waiting finisher sleeps until a broadcast; a cancelled context does not wake it. */
  datatype Phase = Capturing | Waiting(outcome: ActivityState, asleep: bool) | Committing(outcome: ActivityState)
                 | Leaving(success: bool)

  /** db is the state column of the activity's row; captured counts committed captures. */
  datatype System = System(fields: Fields, db: ActivityState, threads: map<nat, Phase>, captured: nat)

  /** What a finish transaction does when the row allows it: commit, fail before the commit, or
      commit and still report an error. */
  datatype CommitResult = Committed | NotCommitted | CommittedWithError

  datatype Step =
    | StartCapture(thread: nat)
    | CommitCapture(thread: nat)
    | EndCapture(thread: nat)
    | EnterFinish(thread: nat, outcome: ActivityState)
    | Wake(thread: nat, cancelled: bool)
    | CommitFinish(thread: nat, result: CommitResult)
    | LeaveFinish(thread: nat)
    | OtherWriter(outcome: ActivityState)

  function Set(s: System, t: nat, p: Phase): System {
    s.(threads := s.threads[t := p])
  }

  function Leave(s: System, t: nat): System {
    s.(threads := s.threads - {t})
  }

  /** cond.Broadcast */
  function Broadcast(threads: map<nat, Phase>): map<nat, Phase> {
    map t | t in threads :: if threads[t].Waiting? then threads[t].(asleep := false) else threads[t]
  }

  function Move(s: System, t: nat, next: (Fields, Entry), outcome: ActivityState): System {
    var u := s.(fields := next.0);
    match next.1
    case Wait => Set(u, t, Waiting(outcome, true))
    case Proceed => Set(u, t, Committing(outcome))
    case _ => Leave(u, t)
  }

  /** The update of the finish transaction on the activity row. */
  function FinishRow(db: ActivityState, outcome: ActivityState, result: CommitResult): (ActivityState, bool) {
    if db.Running? then
      match result
      case Committed => (outcome, true)
      case NotCommitted => (db, false)
      case CommittedWithError => (outcome, false)
    else (db, db == outcome && result.Committed?)
  }

  function Take(s: System, step: Step): System {
    match step
    case StartCapture(t) =>
      if t in s.threads then s
      else var next := StartCaptureSpec(s.fields);
           if next.1 then Set(s.(fields := next.0), t, Capturing) else s
    case CommitCapture(t) =>
      if t in s.threads && s.threads[t].Capturing? && s.db.Running? then s.(captured := s.captured + 1) else s
    case EndCapture(t) =>
      if t in s.threads && s.threads[t].Capturing?
      then var u := Leave(s.(fields := EndCaptureSpec(s.fields)), t); u.(threads := Broadcast(u.threads)) else s
    case EnterFinish(t, outcome) =>
      if t in s.threads || outcome.Running? then s else Move(s, t, EnterFinishSpec(s.fields), outcome)
    case Wake(t, cancelled) =>
      if t in s.threads && s.threads[t].Waiting? && !s.threads[t].asleep
      then Move(s, t, WakeSpec(s.fields, cancelled), s.threads[t].outcome) else s
    case CommitFinish(t, result) =>
      if t in s.threads && s.threads[t].Committing?
      then var next := FinishRow(s.db, s.threads[t].outcome, result); Set(s.(db := next.0), t, Leaving(next.1)) else s
    case LeaveFinish(t) =>
      if t in s.threads && s.threads[t].Leaving?
      then var u := Leave(s.(fields := LeaveFinishSpec(s.fields, s.threads[t].success)), t); u.(threads := Broadcast(u.threads))
      else s
    case OtherWriter(outcome) => if s.db.Running? && !outcome.Running? then s.(db := outcome) else s
  }

  function Run(s: System, steps: seq<Step>): System
    decreases |steps|
  {
    if steps == [] then s else Run(Take(s, steps[0]), steps[1..])
  }

  const FRESH := System(Fields(false, false, 0), Running, map[], 0)

  // ---- Invariant ----

  function Capturers(threads: map<nat, Phase>): set<nat> {
    set t | t in threads && threads[t].Capturing?
  }

  function Finishers(threads: map<nat, Phase>): set<nat> {
    set t | t in threads && !threads[t].Capturing?
  }

  ghost predicate Consistent(s: System) {
    && s.fields.captures == |Capturers(s.threads)|
    && (forall t, u :: t in Finishers(s.threads) && u in Finishers(s.threads) ==> t == u)
    && (s.fields.finishing <==> Finishers(s.threads) != {})
    && (forall t :: t in s.threads && (s.threads[t].Committing? || s.threads[t].Leaving?) ==> s.fields.captures == 0)
    && (forall t :: t in s.threads && s.threads[t].Waiting? && s.threads[t].asleep ==> s.fields.captures > 0)
    && (forall t :: t in s.threads && (s.threads[t].Waiting? || s.threads[t].Committing?) ==> !s.threads[t].outcome.Running?)
    && (forall t :: t in s.threads && s.threads[t].Leaving? && s.threads[t].success ==> !s.db.Running?)
    && (s.fields.terminal ==> !s.db.Running? && s.fields.captures == 0)
  }

  lemma TakeKeeps(s: System, step: Step)
    requires Consistent(s)
    ensures Consistent(Take(s, step))
  {
    match step {
      case StartCapture(t) =>
        assert forall u :: u in s.threads && !s.threads[u].Capturing? ==> u in Finishers(s.threads);
        assert t !in s.threads ==> Capturers(s.threads[t := Capturing]) == Capturers(s.threads) + {t};
        assert t !in s.threads ==> Finishers(s.threads[t := Capturing]) == Finishers(s.threads);
      case EndCapture(t) => EndCaptureKeeps(s, t);
      case EnterFinish(t, outcome) => EnterFinishKeeps(s, t, outcome);
      case Wake(t, cancelled) => WakeKeeps(s, t, cancelled);
      case CommitFinish(t, result) => CommitFinishKeeps(s, t, result);
      case LeaveFinish(t) => LeaveFinishKeeps(s, t);
      case CommitCapture(_) =>
      case OtherWriter(_) =>
    }
  }

  lemma BroadcastKeepsRoles(threads: map<nat, Phase>)
    ensures Capturers(Broadcast(threads)) == Capturers(threads) && Finishers(Broadcast(threads)) == Finishers(threads)
  {
  }

  lemma LeavingRoles(threads: map<nat, Phase>, t: nat)
    ensures Capturers(threads - {t}) == Capturers(threads) - {t} && Finishers(threads - {t}) == Finishers(threads) - {t}
  {
  }

  lemma SettingFinisher(threads: map<nat, Phase>, t: nat, p: Phase)
    requires !p.Capturing? && t !in Capturers(threads)
    ensures Capturers(threads[t := p]) == Capturers(threads) && Finishers(threads[t := p]) == Finishers(threads) + {t}
  {
  }

  lemma EndCaptureKeeps(s: System, t: nat)
    requires Consistent(s)
    ensures Consistent(Take(s, EndCapture(t)))
  {
    LeavingRoles(s.threads, t);
    BroadcastKeepsRoles(s.threads - {t});
  }

  lemma EnterFinishKeeps(s: System, t: nat, outcome: ActivityState)
    requires Consistent(s)
    ensures Consistent(Take(s, EnterFinish(t, outcome)))
  {
    if t !in s.threads && !outcome.Running? {
      if s.fields.terminal || s.fields.finishing {
        assert s.threads - {t} == s.threads;
      } else {
        OneFinisherEnters(s, t, if s.fields.captures > 0 then Waiting(outcome, true) else Committing(outcome));
      }
    }
  }

  lemma OneFinisherEnters(s: System, t: nat, p: Phase)
    requires Consistent(s) && t !in s.threads && !s.fields.finishing && !s.fields.terminal
    requires if s.fields.captures > 0 then p.Waiting? else p.Committing?
    requires !p.outcome.Running?
    ensures Consistent(Set(s.(fields := s.fields.(finishing := true)), t, p))
  {
    SettingFinisher(s.threads, t, p);
    assert forall u :: u in s.threads && !s.threads[u].Capturing? ==> u in Finishers(s.threads);
  }

  lemma WakeKeeps(s: System, t: nat, cancelled: bool)
    requires Consistent(s)
    ensures Consistent(Take(s, Wake(t, cancelled)))
  {
    if t in s.threads && s.threads[t].Waiting? {
      var outcome := s.threads[t].outcome;
      SettingFinisher(s.threads, t, Waiting(outcome, true));
      SettingFinisher(s.threads, t, Committing(outcome));
      LeavingRoles(s.threads, t);
      assert t in Finishers(s.threads);
    }
  }

  lemma CommitFinishKeeps(s: System, t: nat, result: CommitResult)
    requires Consistent(s)
    ensures Consistent(Take(s, CommitFinish(t, result)))
  {
    if t in s.threads && s.threads[t].Committing? {
      SettingFinisher(s.threads, t, Leaving(FinishRow(s.db, s.threads[t].outcome, result).1));
      assert t in Finishers(s.threads);
    }
  }

  lemma LeaveFinishKeeps(s: System, t: nat)
    requires Consistent(s)
    ensures Consistent(Take(s, LeaveFinish(t)))
  {
    LeavingRoles(s.threads, t);
    BroadcastKeepsRoles(s.threads - {t});
    if t in s.threads && s.threads[t].Leaving? {
      assert t in Finishers(s.threads);
    }
  }

  lemma {:induction false} RunKeeps(s: System, steps: seq<Step>)
    requires Consistent(s)
    ensures Consistent(Run(s, steps))
    decreases |steps|
  {
    if steps != [] {
      TakeKeeps(s, steps[0]);
      RunKeeps(Take(s, steps[0]), steps[1..]);
    }
  }

  // ---- What every interleaving keeps ----

  lemma FreshIsConsistent()
    ensures Consistent(FRESH)
  {
    assert Capturers(FRESH.threads) == {} && Finishers(FRESH.threads) == {};
  }

  /** In every interleaving the counter equals the captures in flight and at most one thread is
      finishing. */
  lemma CountsAreExact(steps: seq<Step>, t: nat, u: nat)
    ensures var s := Run(FRESH, steps);
            && s.fields.captures == |Capturers(s.threads)|
            && (t in s.threads && u in s.threads && !s.threads[t].Capturing? && !s.threads[u].Capturing? ==> t == u)
  {
    FreshIsConsistent();
    RunKeeps(FRESH, steps);
    var s := Run(FRESH, steps);
    assert forall v :: v in s.threads && !s.threads[v].Capturing? ==> v in Finishers(s.threads);
  }

  /** The handle ends the activity only when no accepted capture is in flight, and while it
      does none is accepted. */
  lemma FinishWaitsForCaptures(steps: seq<Step>, t: nat, result: CommitResult, v: nat)
    requires var s := Run(FRESH, steps); Take(s, CommitFinish(t, result)).db != s.db
    ensures var s := Run(FRESH, steps);
            && Capturers(s.threads) == {} && s.db.Running? && !Take(s, CommitFinish(t, result)).db.Running?
            && t in s.threads && s.threads[t].Committing? && Take(s, CommitFinish(t, result)).db == s.threads[t].outcome
            && Take(s, StartCapture(v)) == s
  {
    FreshIsConsistent();
    RunKeeps(FRESH, steps);
    var s := Run(FRESH, steps);
    assert t in Finishers(s.threads);
  }

  /** A finish transaction that is committed and reported so leaves with success if it ended the
      row, or found it ended with its own outcome; success means that the row holds the outcome.
      Nothing but the row and the thread's own state changes. */
  lemma FinishSucceedsIff(s: System, t: nat, result: CommitResult)
    requires t in s.threads && s.threads[t].Committing?
    ensures var d, outcome := Take(s, CommitFinish(t, result)), s.threads[t].outcome;
            var success := result.Committed? && (s.db.Running? || s.db == outcome);
            && d == s.(db := if s.db.Running? && !result.NotCommitted? then outcome else s.db, threads := s.threads[t := Leaving(success)])
            && (success ==> d.db == outcome)
  {
    hide Broadcast, StartCaptureSpec, EnterFinishSpec, WakeSpec;
    assert Take(s, CommitFinish(t, result)).threads[t].Leaving?;
  }

  /** The outcome a thread is finishing with. */
  ghost predicate FinishesWith(s: System, t: nat, outcome: ActivityState) {
    t in s.threads && ((s.threads[t].Waiting? && s.threads[t].outcome == outcome) || (s.threads[t].Committing? && s.threads[t].outcome == outcome))
  }

  /** From its entry on a finisher keeps the outcome it was called with, until it leaves. */
  lemma OutcomeIsKept(s: System, t: nat, outcome: ActivityState, step: Step)
    ensures t !in s.threads && (t in Take(s, EnterFinish(t, outcome)).threads) ==> FinishesWith(Take(s, EnterFinish(t, outcome)), t, outcome)
    ensures FinishesWith(s, t, outcome) ==>
      var d := Take(s, step); FinishesWith(d, t, outcome) || t !in d.threads || d.threads[t].Leaving?
  {
  }

  /** Once the row is terminal it never changes and no capture commits. */
  lemma {:induction false} RowIsFinal(s: System, steps: seq<Step>)
    requires !s.db.Running?
    ensures Run(s, steps).db == s.db && Run(s, steps).captured == s.captured
    decreases |steps|
  {
    if steps != [] {
      RowIsFinal(Take(s, steps[0]), steps[1..]);
    }
  }

  /** Once the handle is terminal it stays so, its row is terminal, and nothing is in flight. */
  lemma {:induction false} TerminalIsForEver(s: System, steps: seq<Step>)
    requires Consistent(s) && s.fields.terminal
    ensures var d := Run(s, steps); d.fields.terminal && d.db == s.db && Capturers(d.threads) == {}
    decreases |steps|
  {
    if steps == [] {
      assert |Capturers(s.threads)| == 0;
    } else {
      TakeKeeps(s, steps[0]);
      TerminalStays(s, steps[0]);
      TerminalIsForEver(Take(s, steps[0]), steps[1..]);
    }
  }

  lemma TerminalStays(s: System, step: Step)
    requires Consistent(s) && s.fields.terminal
    ensures Take(s, step).fields.terminal && Take(s, step).db == s.db
  {
  }

  /** No wake-up is lost: when the last capture has ended, a waiting finisher is awake and its
      next turn goes on to commit. */
  lemma FinisherIsNotForgotten(steps: seq<Step>, t: nat, cancelled: bool)
    requires var s := Run(FRESH, steps); t in s.threads && s.threads[t].Waiting? && Capturers(s.threads) == {}
    ensures var s := Run(FRESH, steps);
            !s.threads[t].asleep && Take(s, Wake(t, cancelled)).threads == s.threads[t := Committing(s.threads[t].outcome)]
  {
    FreshIsConsistent();
    RunKeeps(FRESH, steps);
  }

  // ---- Accepted captures ----

  /** No other writer ends the row, and no finish commits and still reports an error. */
  predicate OwnSteps(steps: seq<Step>) {
    forall i :: 0 <= i < |steps| ==> OwnStep(steps[i])
  }

  predicate OwnStep(step: Step) {
    !step.OtherWriter? && !(step.CommitFinish? && step.result.CommittedWithError?)
  }

  /** The row is only terminal once the handle is, or is about to be. */
  ghost predicate RowFollowsHandle(s: System) {
    s.db.Running? || s.fields.terminal || exists t :: t in s.threads && s.threads[t] == Leaving(true)
  }

  lemma StepFollows(s: System, step: Step)
    requires Consistent(s) && RowFollowsHandle(s) && OwnStep(step)
    ensures RowFollowsHandle(Take(s, step))
  {
    if !s.db.Running? && !s.fields.terminal {
      var t :| t in s.threads && s.threads[t] == Leaving(true);
      assert t in Finishers(s.threads);
      if !step.LeaveFinish? {
        StaysLeaving(s, step, t);
      } else if step.thread in s.threads && s.threads[step.thread].Leaving? {
        assert step.thread in Finishers(s.threads);
      }
    } else if step.CommitFinish? && s.db.Running? && !Take(s, step).db.Running? {
      assert Take(s, step).threads[step.thread] == Leaving(true);
    }
  }

  lemma StaysLeaving(s: System, step: Step, t: nat)
    requires Consistent(s) && t in s.threads && s.threads[t] == Leaving(true) && !step.LeaveFinish?
    ensures t in Take(s, step).threads && Take(s, step).threads[t] == Leaving(true)
  {
    assert t in Finishers(s.threads);
    assert forall u :: u in s.threads && !s.threads[u].Capturing? ==> u in Finishers(s.threads);
  }

  lemma {:induction false} RowFollows(s: System, steps: seq<Step>)
    requires Consistent(s) && RowFollowsHandle(s) && OwnSteps(steps)
    ensures Consistent(Run(s, steps)) && RowFollowsHandle(Run(s, steps))
    decreases |steps|
  {
    hide Consistent, RowFollowsHandle, Take;
    if steps != [] {
      TakeKeeps(s, steps[0]);
      StepFollows(s, steps[0]);
      RowFollows(Take(s, steps[0]), steps[1..]);
    }
  }

  /** In any such run the row is still open for every capture that was accepted and has not
      ended: when it commits it is counted, and nothing else changes. */
  lemma AcceptedCaptureCommits(steps: seq<Step>, t: nat)
    requires OwnSteps(steps) && t in Capturers(Run(FRESH, steps).threads)
    ensures var s := Run(FRESH, steps);
            s.db.Running? && Take(s, CommitCapture(t)) == s.(captured := s.captured + 1)
  {
    FreshIsConsistent();
    RowFollows(FRESH, steps);
    hide Run;
    var s := Run(FRESH, steps);
    assert |Capturers(s.threads)| > 0;
  }

  /** Otherwise not: a finish that commits and reports an error leaves the handle open over a
      terminal row, so that a capture is accepted and cannot commit. */
  lemma ReopenedHandle() returns (steps: seq<Step>)
    ensures var s := Run(FRESH, steps);
            1 in Capturers(s.threads) && !s.db.Running? && Take(s, CommitCapture(1)) == s
  {
    steps := [EnterFinish(0, Succeeded), CommitFinish(0, CommittedWithError), LeaveFinish(0), StartCapture(1)];
    var s1 := Take(FRESH, steps[0]);
    var s2 := Take(s1, steps[1]);
    var s3 := Take(s2, steps[2]);
    var s4 := Take(s3, steps[3]);
    assert steps[1..][0] == steps[1] && steps[1..][1..][0] == steps[2] && steps[1..][1..][1..] == [StartCapture(1)];
    assert Run(FRESH, steps) == Run(s1, steps[1..]) == Run(s2, steps[1..][1..]) == Run(s3, [StartCapture(1)]);
    assert [StartCapture(1)][1..] == [];
    assert Run(s3, [StartCapture(1)]) == Run(s4, []) == s4;
  }
}
