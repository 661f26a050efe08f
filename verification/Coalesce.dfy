/**
 Coalesced background work (`_run_coalesced` in `api/project_shared.py`) for one key: a call
 that arrives while a worker runs is absorbed by setting a dirty flag, and the worker runs
 again when it finds the flag set. Each section under the lock is one step, and the final
 check and the release of the running flag are two of them.
 */
module Coalesce {

  type Tid = int

  /** Where a worker is: about to run the work, running it, about to test the dirty flag, or
      past its loop and about to clear the running flag. */
  datatype Pc = Starting | Working | Checking | Exiting

  datatype Event =
    | Admitted
    | Absorbed
    | WorkStarted
    | CleanCheck
    | Raised
    | Exited

  datatype State = State(running: bool, dirty: bool, workers: map<Tid, Pc>, log: seq<Event>)

  datatype Action = Call(tid: Tid) | Advance(tid: Tid) | Raise(tid: Tid)

  const INIT := State(false, false, map[], [])

  function Note(s: State, e: Event): State {
    s.(log := s.log + [e])
  }

  function Move(s: State, tid: Tid, pc: Pc): State {
    s.(workers := s.workers[tid := pc])
  }

  function Step(s: State, a: Action): State {
    match a
    case Call(tid) =>
      if tid in s.workers then s
      else if s.running then Note(s.(dirty := true), Absorbed)
      else Note(Move(s.(running := true), tid, Starting), Admitted)
    case Advance(tid) =>
      if tid !in s.workers then s
      else (match s.workers[tid]
            case Starting => Note(Move(s, tid, Working), WorkStarted)
            case Working => Move(s, tid, Checking)
            case Checking =>
              if s.dirty then Move(s.(dirty := false), tid, Starting)
              else Note(Move(s, tid, Exiting), CleanCheck)
            case Exiting => Note(s.(running := false, workers := s.workers - {tid}), Exited))
    case Raise(tid) =>
      if tid in s.workers && s.workers[tid].Working? then Note(Move(s, tid, Exiting), Raised) else s
  }

  function Run(s: State, actions: seq<Action>): State
    decreases |actions|
  {
    if actions == [] then s else Run(Step(s, actions[0]), actions[1..])
  }

  // ---------------------------------------------------------------- what is promised

  /** Some absorbed request has seen no work start since it arrived. */
  ghost predicate Waiting(log: seq<Event>) {
    exists i :: 0 <= i < |log| && log[i].Absorbed? && forall j :: i < j < |log| ==> !log[j].WorkStarted?
  }

  ghost predicate AboutToStart(s: State) {
    exists t :: t in s.workers && s.workers[t].Starting?
  }

  /** The latest worker left its loop at `i`: its work raised, or it found the flag clear and
      a request was absorbed after that. */
  ghost predicate LeftBehindAt(log: seq<Event>, i: int) {
    && 0 <= i < |log| && (forall j :: i < j < |log| ==> !log[j].Admitted? && !log[j].WorkStarted?)
    && (log[i].Raised? || (log[i].CleanCheck? && exists j :: i < j < |log| && log[j].Absorbed?))
  }

  ghost predicate OneWorker(s: State) {
    && (forall t, u :: t in s.workers && u in s.workers ==> t == u)
    && (s.running <==> s.workers != map[])
  }

  // ------------------------------------------------------------------ the invariant

  /** An absorbed request is the latest of absorptions and work starts. */
  predicate Pending(log: seq<Event>) {
    log != [] && (log[|log| - 1].Absorbed? || (!log[|log| - 1].WorkStarted? && Pending(log[..|log| - 1])))
  }

  /** The latest worker has passed its final check or raised. */
  predicate LeftLoop(log: seq<Event>) {
    log != [] && !log[|log| - 1].Admitted? && !log[|log| - 1].WorkStarted?
      && (log[|log| - 1].CleanCheck? || log[|log| - 1].Raised? || LeftLoop(log[..|log| - 1]))
  }

  predicate Stranded(log: seq<Event>) {
    log != [] &&
    match log[|log| - 1]
    case Raised => true
    case Absorbed => LeftLoop(log[..|log| - 1])
    case Exited => Stranded(log[..|log| - 1])
    case _ => false
  }

  ghost predicate Inv(s: State) {
    && OneWorker(s)
    && (Pending(s.log) ==> s.dirty || AboutToStart(s))
    && (forall t :: t in s.workers && s.workers[t].Exiting? ==> LeftLoop(s.log) && (s.dirty ==> Stranded(s.log)))
    && (!s.running && s.dirty ==> Stranded(s.log))
  }

  lemma Unfold(log: seq<Event>, e: Event)
    ensures Pending(log + [e]) <==> e.Absorbed? || (!e.WorkStarted? && Pending(log))
    ensures LeftLoop(log + [e]) <==> e.CleanCheck? || e.Raised? || (!e.Admitted? && !e.WorkStarted? && LeftLoop(log))
    ensures Stranded(log + [e]) <==> e.Raised? || (e.Absorbed? && LeftLoop(log)) || (e.Exited? && Stranded(log))
  {
    assert (log + [e])[..|log + [e]| - 1] == log;
  }

  lemma StepKeepsInv(s: State, a: Action)
    requires Inv(s)
    ensures Inv(Step(s, a))
  {
    var s' := Step(s, a);
    if |s'.log| > |s.log| {
      Unfold(s.log, s'.log[|s.log|]);
      assert s'.log == s.log + [s'.log[|s.log|]];
    }
    if a.Advance? && a.tid in s.workers {
      assert forall t :: t in s.workers ==> t == a.tid;
      assert s.workers - {a.tid} == map[];
      if s.workers[a.tid].Checking? && s.dirty { assert s'.workers[a.tid].Starting?; }
    } else if a.Call? && a.tid !in s.workers && s.running && AboutToStart(s) {
      assert AboutToStart(s');
    }
  }

  lemma {:induction false} RunKeepsInv(s: State, actions: seq<Action>)
    requires Inv(s)
    ensures Inv(Run(s, actions))
    decreases |actions|
  {
    if actions != [] {
      StepKeepsInv(s, actions[0]);
      RunKeepsInv(Step(s, actions[0]), actions[1..]);
    }
  }

  lemma {:induction false} WaitingIsPending(log: seq<Event>)
    ensures Waiting(log) <==> Pending(log)
  {
    if log != [] {
      var n := |log| - 1;
      WaitingIsPending(log[..n]);
      if Waiting(log) {
        var i :| 0 <= i < |log| && log[i].Absorbed? && forall j :: i < j < |log| ==> !log[j].WorkStarted?;
        if i < n { assert log[..n][i].Absorbed?; }
      }
      if Pending(log) {
        if log[n].Absorbed? {
          assert Waiting(log);
        } else {
          var i :| 0 <= i < n && log[..n][i].Absorbed? && forall j :: i < j < n ==> !log[..n][j].WorkStarted?;
          assert log[i].Absorbed? && forall j :: i < j < n ==> log[..n][j] == log[j];
        }
      }
    }
  }

  lemma {:induction false} LeftLoopAt(log: seq<Event>) returns (i: nat)
    requires LeftLoop(log)
    ensures i < |log| && (log[i].Raised? || log[i].CleanCheck?)
    ensures forall j :: i < j < |log| ==> !log[j].Admitted? && !log[j].WorkStarted?
  {
    i := |log| - 1;
    if !log[i].CleanCheck? && !log[i].Raised? {
      i := LeftLoopAt(log[..|log| - 1]);
    }
  }

  lemma {:induction false} StrandedAt(log: seq<Event>) returns (i: nat)
    requires Stranded(log)
    ensures LeftBehindAt(log, i)
  {
    var n := |log| - 1;
    if log[n].Raised? {
      i := n;
    } else if log[n].Absorbed? {
      i := LeftLoopAt(log[..n]);
      assert i < n && log[n].Absorbed?;
    } else {
      i := StrandedAt(log[..n]);
      if log[i].CleanCheck? {
        var j :| i < j < n && log[..n][j].Absorbed?;
        assert log[j].Absorbed?;
      }
    }
  }

  // ------------------------------------------------------------------ the theorems

  /** In every interleaving at most one worker runs; a request still waiting for a work run is
      remembered by the dirty flag or the worker is about to start one; and the flag outlives
      its worker only if that worker raised or a request came after its final check. */
  lemma CoalescingSafe(actions: seq<Action>)
    ensures var s := Run(INIT, actions);
            && OneWorker(s)
            && (Waiting(s.log) ==> s.dirty || AboutToStart(s))
            && (s.dirty && !s.running ==> exists i :: LeftBehindAt(s.log, i))
  {
    RunKeepsInv(INIT, actions);
    var s := Run(INIT, actions);
    WaitingIsPending(s.log);
    if s.dirty && !s.running {
      var i := StrandedAt(s.log);
    }
  }

  /** Work has started since the event at `n`. */
  ghost predicate Served(log: seq<Event>, n: nat) {
    exists k :: n < k < |log| && log[k].WorkStarted?
  }

  /** However the run goes on after this call, once no worker is left the work has been started
      since the call. `raising` admits runs in which the work raises. */
  ghost predicate Guaranteed(s: State, tid: Tid, raising: bool) {
    forall rest :: (raising || Quiet(rest)) && !Run(Step(s, Call(tid)), rest).running ==>
      Served(Run(Step(s, Call(tid)), rest).log, |s.log|)
  }

  predicate Quiet(actions: seq<Action>) {
    forall i :: 0 <= i < |actions| ==> !actions[i].Raise?
  }

  /** The worker will come to start the work: next, or on finding the flag. */
  ghost predicate WillStart(s: State, raising: bool) {
    && s.running
    && forall t :: t in s.workers ==>
         s.workers[t].Starting? || (s.dirty && (s.workers[t].Checking? || (s.workers[t].Working? && !raising)))
  }

  lemma StepKeepsPromise(s: State, a: Action, n: nat, raising: bool)
    requires Inv(s) && n < |s.log| && (raising || !a.Raise?)
    requires Served(s.log, n) || WillStart(s, raising)
    ensures n < |Step(s, a).log| && (Served(Step(s, a).log, n) || WillStart(Step(s, a), raising))
  {
    var s' := Step(s, a);
    if Served(s.log, n) {
      var k :| n < k < |s.log| && s.log[k].WorkStarted?;
      assert s'.log[k] == s.log[k];
    } else if a.Advance? && a.tid in s.workers && s.workers[a.tid].Starting? {
      assert s'.log[|s.log|].WorkStarted?;
    } else {
      assert WillStart(s', raising);
    }
  }

  lemma {:induction false} PromiseKept(s: State, rest: seq<Action>, n: nat, raising: bool)
    requires Inv(s) && n < |s.log| && (raising || Quiet(rest)) && !Run(s, rest).running
    requires Served(s.log, n) || WillStart(s, raising)
    ensures Served(Run(s, rest).log, n)
    decreases |rest|
  {
    if rest != [] {
      StepKeepsInv(s, rest[0]);
      StepKeepsPromise(s, rest[0], n, raising);
      PromiseKept(Step(s, rest[0]), rest[1..], n, raising);
    }
  }

  /** A call that finds nothing running, or the worker at a point from which it will start the
      work again, is served. */
  lemma CallServed(s: State, tid: Tid, raising: bool)
    requires Inv(s) && tid !in s.workers
    requires forall w :: w in s.workers ==> !s.workers[w].Exiting? && !(raising && s.workers[w].Working?)
    ensures Guaranteed(s, tid, raising)
  {
    var s' := Step(s, Call(tid));
    StepKeepsInv(s, Call(tid));
    assert WillStart(s', raising);
    forall rest | (raising || Quiet(rest)) && !Run(s', rest).running ensures Served(Run(s', rest).log, |s.log|) {
      PromiseKept(s', rest, |s.log|, raising);
    }
  }

  /** One that finds the worker past its final check is not, if the worker then leaves. */
  lemma LateCallUnserved(s: State, tid: Tid, w: Tid, raising: bool)
    requires Inv(s) && tid !in s.workers && w in s.workers && s.workers[w].Exiting?
    ensures !Guaranteed(s, tid, raising)
  {
    var s1 := Step(s, Call(tid));
    var s2 := Step(s1, Advance(w));
    var rest := [Advance(w)];
    assert rest[1..] == [];
    assert Run(s1, rest) == Run(s2, []) == s2;
    assert s2.log == s.log + [Absorbed, Exited];
    assert Quiet(rest) && !Run(s1, rest).running && !Served(s2.log, |s.log|);
  }

  /** Nor is one that comes while the work runs, if the work then raises. */
  lemma CallLostToException(s: State, tid: Tid, w: Tid)
    requires Inv(s) && tid !in s.workers && w in s.workers && s.workers[w].Working?
    ensures !Guaranteed(s, tid, true)
  {
    var s1 := Step(s, Call(tid));
    var s2 := Step(s1, Raise(w));
    var s3 := Step(s2, Advance(w));
    var rest := [Raise(w), Advance(w)];
    assert rest[1..] == [Advance(w)] && [Advance(w)][1..] == [];
    assert Run(s1, rest) == Run(s2, [Advance(w)]) == Run(s3, []) == s3;
    assert s3.log == s.log + [Absorbed, Raised, Exited];
    assert !Run(s1, rest).running && !Served(s3.log, |s.log|);
  }

  /** Without exceptions, a call is sure to be served if and only if no worker stands between
      its final check and the release of the running flag. */
  lemma CallServedExactlyUnlessLate(s: State, tid: Tid)
    requires Inv(s) && tid !in s.workers
    ensures Guaranteed(s, tid, false) <==> forall w :: w in s.workers ==> !s.workers[w].Exiting?
  {
    if w :| w in s.workers && s.workers[w].Exiting? {
      LateCallUnserved(s, tid, w, false);
    } else {
      CallServed(s, tid, false);
    }
  }

  /** When the work may raise, if and only if nothing runs, or the worker is about to start the
      work or about to test the flag. */
  lemma CallServedExactlyIfNotWorking(s: State, tid: Tid)
    requires Inv(s) && tid !in s.workers
    ensures Guaranteed(s, tid, true)
       <==> forall w :: w in s.workers ==> s.workers[w].Starting? || s.workers[w].Checking?
  {
    if w :| w in s.workers && s.workers[w].Exiting? {
      LateCallUnserved(s, tid, w, true);
    } else if w :| w in s.workers && s.workers[w].Working? {
      CallLostToException(s, tid, w);
    } else {
      CallServed(s, tid, true);
    }
  }

  // ------------------------------------------------------------- no work for nothing

  function Calls(log: seq<Event>): nat {
    if log == [] then 0
    else Calls(log[..|log| - 1]) + if log[|log| - 1].Admitted? || log[|log| - 1].Absorbed? then 1 else 0
  }

  function Starts(log: seq<Event>): nat {
    if log == [] then 0
    else Starts(log[..|log| - 1]) + if log[|log| - 1].WorkStarted? then 1 else 0
  }

  /** The runs of the work still to come, as far as they are decided. */
  ghost function Due(s: State): nat {
    (if AboutToStart(s) then 1 else 0) + (if s.dirty then 1 else 0)
  }

  /** They are owed to calls not yet spent on one. */
  ghost predicate Owed(s: State) {
    Starts(s.log) + Due(s) <= Calls(s.log)
  }

  lemma CountsUnfold(log: seq<Event>, e: Event)
    ensures Calls(log + [e]) == Calls(log) + if e.Admitted? || e.Absorbed? then 1 else 0
    ensures Starts(log + [e]) == Starts(log) + if e.WorkStarted? then 1 else 0
  {
    assert (log + [e])[..|log + [e]| - 1] == log;
  }

  lemma CallIsDue(s: State, tid: Tid)
    requires OneWorker(s)
    ensures Due(Step(s, Call(tid))) <= Due(s) + if tid in s.workers then 0 else 1
  {
    var s' := Step(s, Call(tid));
    if s.running && AboutToStart(s') {
      var t :| t in s'.workers && s'.workers[t].Starting?;
      assert t in s.workers && s.workers[t].Starting?;
    }
  }

  lemma AdvanceSpends(s: State, tid: Tid)
    requires OneWorker(s) && tid in s.workers
    ensures Due(Step(s, Advance(tid))) + (if s.workers[tid].Starting? then 1 else 0) <= Due(s)
  {
    var s' := Step(s, Advance(tid));
    assert s.workers[tid].Starting? ==> AboutToStart(s);
    if AboutToStart(s') {
      var t :| t in s'.workers && s'.workers[t].Starting?;
      assert t == tid && s.workers[tid].Checking?;
    }
  }

  lemma RaiseIsNotDue(s: State, tid: Tid)
    ensures Due(Step(s, Raise(tid))) <= Due(s)
  {
    if AboutToStart(Step(s, Raise(tid))) {
      var t :| t in Step(s, Raise(tid)).workers && Step(s, Raise(tid)).workers[t].Starting?;
      assert t in s.workers && s.workers[t].Starting?;
    }
  }

  lemma StepKeepsOwed(s: State, a: Action)
    requires OneWorker(s) && Owed(s)
    ensures Owed(Step(s, a))
  {
    var s' := Step(s, a);
    if |s'.log| > |s.log| {
      CountsUnfold(s.log, s'.log[|s.log|]);
      assert s'.log == s.log + [s'.log[|s.log|]];
    }
    match a
    case Call(tid) => CallIsDue(s, tid);
    case Advance(tid) => if tid in s.workers { AdvanceSpends(s, tid); }
    case Raise(tid) => RaiseIsNotDue(s, tid);
  }

  lemma {:induction false} RunKeepsOwed(s: State, actions: seq<Action>)
    requires Inv(s) && Owed(s)
    ensures Owed(Run(s, actions))
    decreases |actions|
  {
    if actions != [] {
      StepKeepsInv(s, actions[0]);
      StepKeepsOwed(s, actions[0]);
      RunKeepsOwed(Step(s, actions[0]), actions[1..]);
    }
  }

  /** In every interleaving the work is started at most once per call. */
  lemma NoMoreStartsThanCalls(actions: seq<Action>)
    ensures Starts(Run(INIT, actions).log) <= Calls(Run(INIT, actions).log)
  {
    RunKeepsOwed(INIT, actions);
  }

  function Repeat(a: Action, n: nat): seq<Action> {
    if n == 0 then [] else [a] + Repeat(a, n - 1)
  }

  /** How many steps a worker takes until it is gone, if nobody calls and the work does not raise. */
  function StepsLeft(pc: Pc, dirty: bool): nat {
    match pc
    case Exiting => 1
    case Checking => if dirty then 5 else 2
    case Working => if dirty then 6 else 3
    case Starting => if dirty then 7 else 4
  }

  /** Left alone, a worker leaves after exactly that many steps, having served every call. */
  lemma {:induction false} WorkerLeaves(s: State, tid: Tid)
    requires Inv(s) && tid in s.workers
    ensures 1 <= StepsLeft(s.workers[tid], s.dirty) <= 7
    ensures var end := Run(s, Repeat(Advance(tid), StepsLeft(s.workers[tid], s.dirty)));
            && !end.running && end.workers == map[]
            && (end.dirty <==> s.dirty && s.workers[tid].Exiting?)
    ensures forall n :: 0 <= n < StepsLeft(s.workers[tid], s.dirty) ==> Run(s, Repeat(Advance(tid), n)).running
    decreases StepsLeft(s.workers[tid], s.dirty)
  {
    var n, s' := StepsLeft(s.workers[tid], s.dirty), Step(s, Advance(tid));
    StepKeepsInv(s, Advance(tid));
    RepeatOneMore(s, tid, n - 1);
    if s.workers[tid].Exiting? {
      assert s'.workers == map[];
    } else {
      WorkerLeaves(s', tid);
    }
    forall k | 0 <= k < n ensures Run(s, Repeat(Advance(tid), k)).running {
      if k > 0 { RepeatOneMore(s, tid, k - 1); }
    }
  }

  lemma RepeatOneMore(s: State, tid: Tid, n: nat)
    ensures Run(s, Repeat(Advance(tid), n + 1)) == Run(Step(s, Advance(tid)), Repeat(Advance(tid), n))
  {
    assert ([Advance(tid)] + Repeat(Advance(tid), n))[1..] == Repeat(Advance(tid), n);
  }

  /** It does happen: a call absorbed between the final check and the release is not served. */
  lemma RequestLeftWaiting()
    ensures var s := Run(INIT, [Call(1), Advance(1), Advance(1), Advance(1), Call(2), Advance(1)]);
            Waiting(s.log) && s.dirty && !s.running
  {
    var actions := [Call(1), Advance(1), Advance(1), Advance(1), Call(2), Advance(1)];
    var s1 := Step(INIT, actions[0]);
    var s2 := Step(s1, actions[1]);
    var s3 := Step(s2, actions[2]);
    var s4 := Step(s3, actions[3]);
    var s5 := Step(s4, actions[4]);
    var s6 := Step(s5, actions[5]);
    assert s6.log == [Admitted, WorkStarted, CleanCheck, Absorbed, Exited];
    assert s6.log[3].Absorbed?;
    assert actions[1..][1..] == actions[2..] && actions[2..][1..] == actions[3..] && actions[3..][1..] == actions[4..];
    assert actions[4..][1..] == actions[5..] && actions[5..][1..] == actions[6..];
    assert Run(INIT, actions) == Run(s1, actions[1..]) == Run(s2, actions[2..]) == Run(s3, actions[3..]);
    assert Run(s3, actions[3..]) == Run(s4, actions[4..]) == Run(s5, actions[5..]) == Run(s6, actions[6..]);
  }
}
