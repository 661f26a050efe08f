/**
 Route resolution of one transport segment (`api/segments.py`): triggers, background jobs
 that may finish late or be retried, hand-drawn tracks and resets of the route, in any
 interleaving. Every write of the segment is a single-row conditional write, and the
 `route_started_at` token of a trigger decides whether its job's verdict may land.
 */
module RouteJobs {
  import opened Wrappers

  type Token = int

  datatype Status = Unresolved | Pending | Resolved | Failed

  datatype Line = Drawn(drawing: int) | Routed(token: Token)

  datatype Segment = Segment(status: Status, token: Option<Token>, line: Option<Line>, edited: bool)

  /** What happened, in commit order. `Asked` is the moment a trigger reads the segment and
      passes the manual-edit guard, `Stamped` its write of the pending status and token;
      `Reset` clears the route on a coordinate or mode change. */
  datatype Event =
    | Asked(token: Token, force: bool)
    | Stamped(token: Token)
    | Verdict(token: Token, found: bool)
    | Edited(drawing: int)
    | Reset

  /** `segment` is None once deleted; `asking` are triggers between guard and stamp; `jobs`
      are the tokens a job was queued for, which stay because a job may run again. */
  datatype World = World(segment: Option<Segment>, asking: set<Token>, jobs: set<Token>, log: seq<Event>)

  datatype Action =
    | Ask(token: Token, force: bool)
    | Stamp(token: Token)
    | Finish(token: Token, found: bool)
    | MarkFailed(token: Token)
    | Edit(drawing: int)
    | ResetRoute
    | Delete

  const INIT := World(Some(Segment(Unresolved, None, None, false)), {}, {}, [])

  // ------------------------------------------------------------------- the steps

  predicate Used(log: seq<Event>, t: Token) {
    exists i :: 0 <= i < |log| && log[i].Asked? && log[i].token == t
  }

  function Write(w: World, seg: Segment, e: Event): World {
    w.(segment := Some(seg), log := w.log + [e])
  }

  /** `update_segment_fields` guarded by the job's token; the line is kept on a failed verdict. */
  function Settle(w: World, t: Token, found: bool): World {
    if w.segment.None? || w.segment.value.token != Some(t) then w
    else if found then Write(w, Segment(Resolved, None, Some(Routed(t)), false), Verdict(t, true))
    else Write(w, w.segment.value.(status := Failed, token := None), Verdict(t, false))
  }

  function Step(w: World, a: Action): World {
    match a
    case Ask(t, force) =>
      if w.segment.None? || Used(w.log, t) || (w.segment.value.edited && !force) then w
      else w.(asking := w.asking + {t}, log := w.log + [Asked(t, force)])
    case Stamp(t) =>
      if t !in w.asking then w
      else if w.segment.None? then w.(asking := w.asking - {t})
      else Write(w, w.segment.value.(status := Pending, token := Some(t)), Stamped(t))
             .(asking := w.asking - {t}, jobs := w.jobs + {t})
    case Finish(t, found) => if t in w.jobs then Settle(w, t, found) else w
    case MarkFailed(t) =>
      if t in w.jobs && w.segment.Some? && w.segment.value.status == Pending then Settle(w, t, false) else w
    case Edit(drawing) =>
      if w.segment.None? then w
      else Write(w, Segment(Resolved, None, Some(Drawn(drawing)), true), Edited(drawing))
    case ResetRoute =>
      if w.segment.None? then w else Write(w, w.segment.value.(line := None), Reset)
    case Delete => w.(segment := None)
  }

  function Run(w: World, actions: seq<Action>): World
    decreases |actions|
  {
    if actions == [] then w else Run(Step(w, actions[0]), actions[1..])
  }

  // ---------------------------------------------------------------- what is promised

  /** The verdict at `j` answers the stamp at `i`: since then nothing but new questions and
      route resets happened, so no later trigger, no edit and no other verdict. */
  ghost predicate Answers(log: seq<Event>, i: int, j: int) {
    && 0 <= i < j < |log| && log[j].Verdict? && log[i] == Stamped(log[j].token)
    && forall m :: i < m < j ==> log[m].Asked? || log[m].Reset?
  }

  ghost predicate VerdictsCurrent(log: seq<Event>) {
    forall j :: 0 <= j < |log| && log[j].Verdict? ==> exists i :: Answers(log, i, j)
  }

  ghost predicate VerdictsOnce(log: seq<Event>) {
    forall j, k :: 0 <= j < k < |log| && log[j].Verdict? && log[k].Verdict? ==> log[j].token != log[k].token
  }

  /** The last hand-drawn track, or None if a reset cleared the route after it. */
  function HandDrawn(log: seq<Event>): Option<Line> {
    if log == [] then None
    else match log[|log| - 1]
      case Edited(d) => Some(Drawn(d))
      case Reset => None
      case _ => HandDrawn(log[..|log| - 1])
  }

  /** Whether the last of edits and successful verdicts was an edit. */
  predicate UnderEdit(log: seq<Event>) {
    log != [] &&
    match log[|log| - 1]
    case Edited(_) => true
    case Verdict(_, found) => !found && UnderEdit(log[..|log| - 1])
    case _ => UnderEdit(log[..|log| - 1])
  }

  ghost predicate Forced(log: seq<Event>, t: Token) {
    Asked(t, true) in log
  }

  /** An edit landed after the trigger passed its guard and before it stamped the segment. */
  ghost predicate Raced(log: seq<Event>, t: Token) {
    exists a, e, i :: RacedAt(log, t, a, e, i)
  }

  ghost predicate RacedAt(log: seq<Event>, t: Token, a: int, e: int, i: int) {
    0 <= a < e < i < |log| && log[a] == Asked(t, false) && log[e].Edited? && log[i] == Stamped(t)
  }

  /** The verdict at `j` threw a hand-drawn track away. */
  ghost predicate Discards(log: seq<Event>, j: int) {
    0 <= j < |log| && log[j].Verdict? && log[j].found && UnderEdit(log[..j])
  }

  ghost predicate DiscardsExcused(log: seq<Event>) {
    forall j :: Discards(log, j) ==> Forced(log, log[j].token) || Raced(log, log[j].token)
  }

  /** The stored line: the last of edits, successful verdicts and resets decides. */
  function StoredLine(log: seq<Event>): Option<Line> {
    if log == [] then None
    else match log[|log| - 1]
      case Edited(d) => Some(Drawn(d))
      case Reset => None
      case Verdict(t, found) => if found then Some(Routed(t)) else StoredLine(log[..|log| - 1])
      case _ => StoredLine(log[..|log| - 1])
  }

  function StoredStatus(log: seq<Event>): Status {
    if log == [] then Unresolved
    else match log[|log| - 1]
      case Stamped(_) => Pending
      case Verdict(_, found) => if found then Resolved else Failed
      case Edited(_) => Resolved
      case _ => StoredStatus(log[..|log| - 1])
  }

  /** The row is what its history says, and pending exactly while it carries a token. */
  ghost predicate SegmentMatches(seg: Segment, log: seq<Event>) {
    && seg.status == StoredStatus(log) && seg.line == StoredLine(log) && (seg.edited <==> UnderEdit(log))
    && (seg.status == Pending <==> seg.token.Some?)
  }

  // ------------------------------------------------------------------ the invariant

  /** `t` was stamped last, with only questions and resets since. */
  predicate Current(log: seq<Event>, t: Token) {
    log != [] && (log[|log| - 1] == Stamped(t)
                  || ((log[|log| - 1].Asked? || log[|log| - 1].Reset?) && Current(log[..|log| - 1], t)))
  }

  /** An edit landed since `t` was asked. */
  predicate EditedSinceAsked(log: seq<Event>, t: Token) {
    log != [] && !(log[|log| - 1].Asked? && log[|log| - 1].token == t)
      && (log[|log| - 1].Edited? || EditedSinceAsked(log[..|log| - 1], t))
  }

  ghost predicate AskingOk(log: seq<Event>, t: Token) {
    && (Asked(t, true) in log || Asked(t, false) in log) && Stamped(t) !in log
    && (UnderEdit(log) ==> Forced(log, t) || EditedSinceAsked(log, t))
  }

  ghost predicate StampsOnce(log: seq<Event>) {
    forall i, j :: 0 <= i < j < |log| && log[i].Stamped? && log[j].Stamped? ==> log[i].token != log[j].token
  }

  /** What holds of the log alone. */
  ghost predicate LogOk(log: seq<Event>) {
    && VerdictsCurrent(log) && StampsOnce(log) && DiscardsExcused(log)
    && forall t :: Stamped(t) in log ==> Used(log, t)
  }

  /** The token in the segment row is current, and an edit it could discard is excused. */
  ghost predicate TokenOk(log: seq<Event>, t: Token) {
    Current(log, t) && (UnderEdit(log) ==> Forced(log, t) || Raced(log, t))
  }

  ghost predicate Inv(w: World) {
    && LogOk(w.log)
    && (forall t :: t in w.asking ==> AskingOk(w.log, t))
    && (w.segment.Some? ==> SegmentMatches(w.segment.value, w.log))
    && (w.segment.Some? && w.segment.value.token.Some? ==> TokenOk(w.log, w.segment.value.token.value))
  }

  // ----------------------------------------------------------- appending an event

  lemma ExcusesStay(log: seq<Event>, e: Event, t: Token)
    ensures Forced(log, t) ==> Forced(log + [e], t)
    ensures Raced(log, t) ==> Raced(log + [e], t)
    ensures Used(log, t) ==> Used(log + [e], t)
    ensures log <= log + [e] && (log + [e])[..|log|] == log
  {
    var log' := log + [e];
    if Raced(log, t) {
      var a, x, i :| RacedAt(log, t, a, x, i);
      assert RacedAt(log', t, a, x, i);
    }
    if Used(log, t) {
      var i :| 0 <= i < |log| && log[i].Asked? && log[i].token == t;
      assert log'[i] == log[i];
    }
  }

  lemma {:induction false} CurrentAnswers(log: seq<Event>, t: Token) returns (i: nat)
    requires Current(log, t)
    ensures i < |log| && log[i] == Stamped(t) && forall m :: i < m < |log| ==> log[m].Asked? || log[m].Reset?
  {
    if log[|log| - 1] == Stamped(t) {
      i := |log| - 1;
    } else {
      i := CurrentAnswers(log[..|log| - 1], t);
    }
  }

  lemma AppendVerdictsCurrent(log: seq<Event>, e: Event)
    requires VerdictsCurrent(log) && (e.Verdict? ==> Current(log, e.token))
    ensures VerdictsCurrent(log + [e])
  {
    var log' := log + [e];
    forall j | 0 <= j < |log'| && log'[j].Verdict? ensures exists i :: Answers(log', i, j) {
      if j < |log| {
        var i :| Answers(log, i, j);
        assert Answers(log', i, j);
      } else {
        var i := CurrentAnswers(log, e.token);
        assert Answers(log', i, j);
      }
    }
  }

  lemma AppendDiscardsExcused(log: seq<Event>, e: Event)
    requires DiscardsExcused(log)
    requires e.Verdict? && UnderEdit(log) ==> Forced(log, e.token) || Raced(log, e.token)
    ensures DiscardsExcused(log + [e])
  {
    var log' := log + [e];
    forall j | Discards(log', j) ensures Forced(log', log'[j].token) || Raced(log', log'[j].token) {
      ExcusesStay(log, e, log'[j].token);
      assert log'[..j] == log[..j];
      if j < |log| {
        assert Discards(log, j);
      } else {
        assert log[..j] == log;
      }
    }
  }

  lemma AppendLogOk(log: seq<Event>, e: Event)
    requires LogOk(log)
    requires e.Verdict? ==> TokenOk(log, e.token)
    requires e.Stamped? ==> Stamped(e.token) !in log && Used(log, e.token)
    ensures LogOk(log + [e])
  {
    AppendVerdictsCurrent(log, e);
    AppendDiscardsExcused(log, e);
    forall t | Stamped(t) in log + [e] ensures Used(log + [e], t) {
      ExcusesStay(log, e, t);
    }
  }

  /** The edit flag, the hand-drawn line and the questions asked, one event later. */
  lemma AppendUnfolds(log: seq<Event>, e: Event, t: Token)
    ensures UnderEdit(log + [e]) <==> e.Edited? || (!(e.Verdict? && e.found) && UnderEdit(log))
    ensures StoredLine(log + [e])
         == if e.Edited? then Some(Drawn(e.drawing)) else if e.Reset? then None
            else if e.Verdict? && e.found then Some(Routed(e.token)) else StoredLine(log)
    ensures StoredStatus(log + [e])
         == if e.Edited? then Resolved else if e.Stamped? then Pending
            else if e.Verdict? then (if e.found then Resolved else Failed) else StoredStatus(log)
    ensures HandDrawn(log + [e])
         == if e.Edited? then Some(Drawn(e.drawing)) else if e.Reset? then None else HandDrawn(log)
    ensures Current(log + [e], t) <==> e == Stamped(t) || ((e.Asked? || e.Reset?) && Current(log, t))
    ensures EditedSinceAsked(log + [e], t)
       <==> !(e.Asked? && e.token == t) && (e.Edited? || EditedSinceAsked(log, t))
  {
    assert (log + [e])[..|log + [e]| - 1] == log;
  }

  lemma AskingStays(log: seq<Event>, e: Event, t: Token)
    requires AskingOk(log, t) && e != Stamped(t) && !(e.Asked? && e.token == t)
    ensures AskingOk(log + [e], t)
  {
    ExcusesStay(log, e, t);
    AppendUnfolds(log, e, t);
  }

  lemma {:induction false} EditFoundSinceAsked(log: seq<Event>, t: Token) returns (a: nat, x: nat)
    requires EditedSinceAsked(log, t) && Asked(t, false) in log
    ensures a < x < |log| && log[a] == Asked(t, false) && log[x].Edited?
  {
    var n := |log| - 1;
    if log[n].Edited? {
      a :| 0 <= a < |log| && log[a] == Asked(t, false);
      x := n;
    } else {
      assert Asked(t, false) in log[..n];
      a, x := EditFoundSinceAsked(log[..n], t);
    }
  }

  lemma StampedTokenOk(log: seq<Event>, t: Token)
    requires AskingOk(log, t)
    ensures TokenOk(log + [Stamped(t)], t)
  {
    var log' := log + [Stamped(t)];
    AppendUnfolds(log, Stamped(t), t);
    ExcusesStay(log, Stamped(t), t);
    if UnderEdit(log) && !Forced(log, t) {
      var a, x := EditFoundSinceAsked(log, t);
      assert RacedAt(log', t, a, x, |log|);
    }
  }

  // --------------------------------------------------------- every step keeps it

  /** One more event: the log stays sound, and so do the triggers still between guard and stamp. */
  lemma EventKeepsInv(w: World, w': World, e: Event)
    requires Inv(w) && w'.log == w.log + [e] && LogOk(w'.log)
    requires forall t :: t in w'.asking ==>
               (t in w.asking && e != Stamped(t) && !(e.Asked? && e.token == t)) || AskingOk(w'.log, t)
    requires w'.segment.Some? ==> SegmentMatches(w'.segment.value, w'.log)
    requires w'.segment.Some? && w'.segment.value.token.Some? ==> TokenOk(w'.log, w'.segment.value.token.value)
    ensures Inv(w')
  {
    forall t | t in w'.asking ensures AskingOk(w'.log, t) {
      if !AskingOk(w'.log, t) { AskingStays(w.log, e, t); }
    }
  }

  lemma AskKeepsInv(w: World, t: Token, force: bool)
    requires Inv(w)
    ensures Inv(Step(w, Ask(t, force)))
  {
    var e, w' := Asked(t, force), Step(w, Ask(t, force));
    if w' != w {
      AppendLogOk(w.log, e);
      AppendUnfolds(w.log, e, t);
      var seg := w.segment.value;
      if seg.token.Some? {
        AppendUnfolds(w.log, e, seg.token.value);
        ExcusesStay(w.log, e, seg.token.value);
      }
      assert e in w'.log;
      forall t' | t' in w.asking ensures t' != t { assert AskingOk(w.log, t'); AskedIsUsed(w.log, t'); }
      EventKeepsInv(w, w', e);
    }
  }

  lemma AskedIsUsed(log: seq<Event>, t: Token)
    requires Asked(t, true) in log || Asked(t, false) in log
    ensures Used(log, t)
  {
    var i :| 0 <= i < |log| && (log[i] == Asked(t, true) || log[i] == Asked(t, false));
  }

  lemma StampKeepsInv(w: World, t: Token)
    requires Inv(w)
    ensures Inv(Step(w, Stamp(t)))
  {
    var e, w' := Stamped(t), Step(w, Stamp(t));
    if t in w.asking && w.segment.Some? {
      assert AskingOk(w.log, t);
      AskedIsUsed(w.log, t);
      AppendLogOk(w.log, e);
      AppendUnfolds(w.log, e, t);
      StampedTokenOk(w.log, t);
      EventKeepsInv(w, w', e);
    }
  }

  lemma SettleKeepsInv(w: World, t: Token, found: bool)
    requires Inv(w)
    ensures Inv(Settle(w, t, found))
  {
    if w.segment.Some? && w.segment.value.token == Some(t) {
      var e := Verdict(t, found);
      AppendLogOk(w.log, e);
      AppendUnfolds(w.log, e, t);
      EventKeepsInv(w, Settle(w, t, found), e);
    }
  }

  lemma EditKeepsInv(w: World, drawing: int)
    requires Inv(w)
    ensures Inv(Step(w, Edit(drawing)))
  {
    if w.segment.Some? {
      AppendLogOk(w.log, Edited(drawing));
      AppendUnfolds(w.log, Edited(drawing), 0);
      EventKeepsInv(w, Step(w, Edit(drawing)), Edited(drawing));
    }
  }

  lemma ResetKeepsInv(w: World)
    requires Inv(w)
    ensures Inv(Step(w, ResetRoute))
  {
    if w.segment.Some? {
      AppendLogOk(w.log, Reset);
      AppendUnfolds(w.log, Reset, 0);
      if w.segment.value.token.Some? {
        AppendUnfolds(w.log, Reset, w.segment.value.token.value);
        ExcusesStay(w.log, Reset, w.segment.value.token.value);
      }
      EventKeepsInv(w, Step(w, ResetRoute), Reset);
    }
  }

  lemma StepKeepsInv(w: World, a: Action)
    requires Inv(w)
    ensures Inv(Step(w, a))
  {
    match a
    case Ask(t, force) => AskKeepsInv(w, t, force);
    case Stamp(t) => StampKeepsInv(w, t);
    case Finish(t, found) => SettleKeepsInv(w, t, found);
    case MarkFailed(t) => SettleKeepsInv(w, t, false);
    case Edit(drawing) => EditKeepsInv(w, drawing);
    case ResetRoute => ResetKeepsInv(w);
    case Delete =>
  }

  lemma {:induction false} RunKeepsInv(w: World, actions: seq<Action>)
    requires Inv(w)
    ensures Inv(Run(w, actions))
    decreases |actions|
  {
    if actions != [] {
      StepKeepsInv(w, actions[0]);
      RunKeepsInv(Step(w, actions[0]), actions[1..]);
    }
  }

  // ------------------------------------------------------------------ the theorems

  lemma OnceFromCurrent(log: seq<Event>)
    requires VerdictsCurrent(log) && StampsOnce(log)
    ensures VerdictsOnce(log)
  {
    forall j, k | 0 <= j < k < |log| && log[j].Verdict? && log[k].Verdict? ensures log[j].token != log[k].token {
      var i :| Answers(log, i, j);
      var h :| Answers(log, h, k);
    }
  }

  /** In every run each trigger's verdict is written at most once and only while no later
      trigger or edit has happened, and the segment is pending exactly while a token is set. */
  lemma TokensArbitrate(actions: seq<Action>)
    ensures var w := Run(INIT, actions);
            && VerdictsCurrent(w.log) && VerdictsOnce(w.log)
            && (w.segment.Some? ==>
                  && w.segment.value.status == StoredStatus(w.log)
                  && (w.segment.value.status == Pending <==> w.segment.value.token.Some?))
  {
    RunKeepsInv(INIT, actions);
    OnceFromCurrent(Run(INIT, actions).log);
  }

  /** In every run, while the edit flag holds the stored line is the last hand-drawn one or
      was cleared by a reset; and a verdict takes the flag away only if its trigger was
      forced or an edit landed between that trigger's guard and its stamp. */
  lemma EditsProtected(actions: seq<Action>)
    ensures var w := Run(INIT, actions);
            && (w.segment.Some? ==>
                  (w.segment.value.edited <==> UnderEdit(w.log)) && w.segment.value.line == StoredLine(w.log))
            && (w.segment.Some? && w.segment.value.edited ==> w.segment.value.line == HandDrawn(w.log))
            && DiscardsExcused(w.log)
  {
    RunKeepsInv(INIT, actions);
    if UnderEdit(Run(INIT, actions).log) { HandDrawnKept(Run(INIT, actions).log); }
  }

  lemma {:induction false} HandDrawnKept(log: seq<Event>)
    requires UnderEdit(log)
    ensures StoredLine(log) == HandDrawn(log)
  {
    var e := log[|log| - 1];
    if !e.Edited? && !e.Reset? { HandDrawnKept(log[..|log| - 1]); }
  }

  /** Between the stamp at `i` and the verdict answering it the edit flag does not move, so
      what the verdict discards is decided at the stamp. */
  lemma {:induction false} FlagHeldUntil(log: seq<Event>, i: int, j: int, m: int)
    requires Answers(log, i, j) && i < m <= j
    ensures UnderEdit(log[..m]) <==> UnderEdit(log[..i])
    decreases m
  {
    assert log[..m] == log[..m - 1] + [log[m - 1]];
    AppendUnfolds(log[..m - 1], log[m - 1], 0);
    if m - 1 > i {
      FlagHeldUntil(log, i, j, m - 1);
    }
  }

  lemma {:induction false} LogGrows(w: World, actions: seq<Action>)
    ensures w.log <= Run(w, actions).log
    decreases |actions|
  {
    if actions != [] { LogGrows(Step(w, actions[0]), actions[1..]); }
  }

  /** Whatever happens after trigger `t` stamps the segment, its verdict discards no hand-drawn
      track. */
  ghost predicate NeverDiscards(w: World, t: Token) {
    forall rest, j :: Discards(Run(Step(w, Stamp(t)), rest).log, j) ==> Run(Step(w, Stamp(t)), rest).log[j].token != t
  }

  lemma UneditedIsSafe(w: World, t: Token, rest: seq<Action>, j: int)
    requires Inv(w) && t in w.asking && w.segment.Some? && !w.segment.value.edited
    requires Discards(Run(Step(w, Stamp(t)), rest).log, j)
    ensures Run(Step(w, Stamp(t)), rest).log[j].token != t
  {
    var w' := Step(w, Stamp(t));
    var log := Run(w', rest).log;
    StampKeepsInv(w, t);
    RunKeepsInv(w', rest);
    LogGrows(w', rest);
    if log[j].token == t {
      var i :| Answers(log, i, j);
      var n := |w.log|;
      assert log[n] == w'.log[n] == Stamped(t);
      assert i == n;
      assert log[..n] == w'.log[..n] == w.log;
      FlagHeldUntil(log, i, j, j);
    }
  }

  lemma EditedCanBeDiscarded(w: World, t: Token)
    requires Inv(w) && t in w.asking && w.segment.Some? && w.segment.value.edited
    ensures !NeverDiscards(w, t)
  {
    var w1 := Step(w, Stamp(t));
    var rest := [Finish(t, true)];
    var w2 := Step(w1, rest[0]);
    assert rest[1..] == [];
    assert Run(w1, rest) == Run(w2, []) == w2;
    AppendUnfolds(w.log, Stamped(t), t);
    assert w1.log == w.log + [Stamped(t)] && w2.log == w1.log + [Verdict(t, true)];
    var j := |w1.log|;
    assert w2.log[..j] == w1.log;
    assert Discards(Run(w1, rest).log, j) && Run(w1, rest).log[j].token == t;
  }

  /** A trigger that has passed its guard can never discard a hand-drawn track if and only if the
      row it stamps is not under an edit: the check that the stamping write does not make. */
  lemma StampSafeExactlyIfUnedited(w: World, t: Token)
    requires Inv(w) && t in w.asking && w.segment.Some?
    ensures NeverDiscards(w, t) <==> !w.segment.value.edited
  {
    if w.segment.value.edited {
      EditedCanBeDiscarded(w, t);
    } else {
      forall rest, j | Discards(Run(Step(w, Stamp(t)), rest).log, j)
        ensures Run(Step(w, Stamp(t)), rest).log[j].token != t
      {
        UneditedIsSafe(w, t, rest, j);
      }
    }
  }

  /** So only forced triggers discard, as long as no edit slips in between an unforced trigger's
      guard and its stamp. */
  lemma OnlyForceDiscards(actions: seq<Action>)
    requires forall t :: !Raced(Run(INIT, actions).log, t)
    ensures var log := Run(INIT, actions).log;
            forall j :: Discards(log, j) ==> Forced(log, log[j].token)
  {
    RunKeepsInv(INIT, actions);
  }

  /** The guard and the stamp are not one atomic step: an unforced trigger that read the
      segment just before an edit goes on to discard it. */
  lemma UnforcedTriggerCanDiscard()
    ensures var w := Run(INIT, [Ask(1, false), Edit(7), Stamp(1), Finish(1, true)]);
            Discards(w.log, 3) && !Forced(w.log, 1)
            && w.segment == Some(Segment(Resolved, None, Some(Routed(1)), false))
  {
    var actions := [Ask(1, false), Edit(7), Stamp(1), Finish(1, true)];
    var w1 := Step(INIT, actions[0]);
    assert w1.log == [Asked(1, false)];
    var w2 := Step(w1, actions[1]);
    assert w2.log == [Asked(1, false), Edited(7)];
    var w3 := Step(w2, actions[2]);
    assert w3.log == [Asked(1, false), Edited(7), Stamped(1)];
    var w4 := Step(w3, actions[3]);
    assert w4.log == [Asked(1, false), Edited(7), Stamped(1), Verdict(1, true)];
    assert Run(INIT, actions) == Run(w1, actions[1..]) == Run(w2, actions[2..]) by {
      assert actions[1..][1..] == actions[2..];
    }
    assert Run(w2, actions[2..]) == Run(w3, actions[3..]) == Run(w4, actions[4..]) by {
      assert actions[2..][1..] == actions[3..];
      assert actions[3..][1..] == actions[4..];
    }
    assert w4.log[..3] == [Asked(1, false), Edited(7)] + [Stamped(1)];
    AppendUnfolds([Asked(1, false), Edited(7)], Stamped(1), 1);
  }

  // ------------------------------------------------------------- verdicts do land

  predicate Awaits(w: World, t: Token) {
    w.segment.Some? && w.segment.value.token == Some(t)
  }

  /** Ends the wait for the verdict of `t`: the verdict itself, the crash handler, an edit, the
      deletion of the segment, or the stamp of a later trigger. */
  predicate EndsWait(w: World, a: Action, t: Token) {
    || (a.Finish? && a.token == t) || a == MarkFailed(t) || a.Edit? || a.Delete?
    || (a.Stamp? && a.token in w.asking)
  }

  ghost predicate Undisturbed(w: World, rest: seq<Action>, t: Token)
    decreases |rest|
  {
    rest == [] || (!EndsWait(w, rest[0], t) && Undisturbed(Step(w, rest[0]), rest[1..], t))
  }

  lemma WaitEnds(w: World, a: Action, t: Token)
    requires Inv(w) && Awaits(w, t) && t in w.jobs && t !in w.asking && Used(w.log, t)
    ensures Awaits(Step(w, a), t) <==> !EndsWait(w, a, t)
    ensures t in Step(w, a).jobs && t !in Step(w, a).asking && Used(Step(w, a).log, t)
  {
    UsedStays(w, a, t);
  }

  lemma UsedStays(w: World, a: Action, t: Token)
    requires Used(w.log, t)
    ensures Used(Step(w, a).log, t)
  {
    var i :| 0 <= i < |w.log| && w.log[i].Asked? && w.log[i].token == t;
    assert Step(w, a).log[i] == w.log[i];
  }

  lemma {:induction false} NeverAwaitedAgain(w: World, rest: seq<Action>, t: Token)
    requires !Awaits(w, t) && t !in w.asking && Used(w.log, t)
    ensures !Awaits(Run(w, rest), t)
    decreases |rest|
  {
    if rest != [] {
      UsedStays(w, rest[0], t);
      NeverAwaitedAgain(Step(w, rest[0]), rest[1..], t);
    }
  }

  lemma {:induction false} WaitsWhileUndisturbed(w: World, rest: seq<Action>, t: Token)
    requires Inv(w) && Awaits(w, t) && t in w.jobs && t !in w.asking && Used(w.log, t)
    ensures Awaits(Run(w, rest), t) <==> Undisturbed(w, rest, t)
    ensures Undisturbed(w, rest, t) ==> t in Run(w, rest).jobs
    decreases |rest|
  {
    if rest != [] {
      WaitEnds(w, rest[0], t);
      StepKeepsInv(w, rest[0]);
      if EndsWait(w, rest[0], t) {
        NeverAwaitedAgain(Step(w, rest[0]), rest[1..], t);
      } else {
        WaitsWhileUndisturbed(Step(w, rest[0]), rest[1..], t);
      }
    }
  }

  lemma StampAwaits(w: World, t: Token)
    requires Inv(w) && t in w.asking && w.segment.Some?
    ensures var w' := Step(w, Stamp(t)); Inv(w') && Awaits(w', t) && t in w'.jobs && t !in w'.asking && Used(w'.log, t)
  {
    assert AskingOk(w.log, t);
    AskedIsUsed(w.log, t);
    StampKeepsInv(w, t);
    UsedStays(w, Stamp(t), t);
  }

  /** After a stamp the segment is pending for that trigger exactly as long as neither its job has
      finished or crashed, nor an edit, a later stamp or the deletion of the segment has come. */
  lemma PendingExactlyWhileUndisturbed(w: World, t: Token, rest: seq<Action>)
    requires Inv(w) && t in w.asking && w.segment.Some?
    ensures Awaits(Run(Step(w, Stamp(t)), rest), t) <==> Undisturbed(Step(w, Stamp(t)), rest, t)
    ensures Awaits(Run(Step(w, Stamp(t)), rest), t) ==> Run(Step(w, Stamp(t)), rest).segment.value.status == Pending
  {
    StampAwaits(w, t);
    WaitsWhileUndisturbed(Step(w, Stamp(t)), rest, t);
    RunKeepsInv(Step(w, Stamp(t)), rest);
  }

  /** The first verdict after an undisturbed wait is written. A failed one leaves the line and the
      edit flag as they are, and a crash counts as a failed one. */
  lemma VerdictLands(w: World, t: Token, rest: seq<Action>, found: bool)
    requires Inv(w) && t in w.asking && w.segment.Some? && Undisturbed(Step(w, Stamp(t)), rest, t)
    ensures var before := Run(Step(w, Stamp(t)), rest);
            var after := Step(before, Finish(t, found));
            && before.segment.Some? && after.log == before.log + [Verdict(t, found)]
            && after.segment == Some(if found then Segment(Resolved, None, Some(Routed(t)), false)
                                     else before.segment.value.(status := Failed, token := None))
            && Step(before, MarkFailed(t)) == Step(before, Finish(t, false))
  {
    StampAwaits(w, t);
    WaitsWhileUndisturbed(Step(w, Stamp(t)), rest, t);
    PendingExactlyWhileUndisturbed(w, t, rest);
  }

  lemma {:induction false} RunSplit(w: World, actions: seq<Action>, i: nat)
    requires i <= |actions|
    ensures Run(w, actions) == Run(Run(w, actions[..i]), actions[i..])
    decreases i
  {
    if i > 0 {
      RunSplit(Step(w, actions[0]), actions[1..], i - 1);
      assert actions[1..][..i - 1] == actions[..i][1..] && actions[1..][i - 1..] == actions[i..];
    }
  }

  lemma RunSnoc(w: World, actions: seq<Action>)
    requires actions != []
    ensures var n := |actions| - 1; Run(w, actions) == Step(Run(w, actions[..n]), actions[n])
  {
    var n := |actions| - 1;
    RunSplit(w, actions, n);
    assert actions[n..][1..] == [];
    assert Run(Step(Run(w, actions[..n]), actions[n]), []) == Step(Run(w, actions[..n]), actions[n]);
  }

  lemma {:induction false} StampFound(actions: seq<Action>, t: Token) returns (i: nat)
    requires Awaits(Run(INIT, actions), t)
    ensures i < |actions| && actions[i] == Stamp(t)
    ensures t in Run(INIT, actions[..i]).asking && Run(INIT, actions[..i]).segment.Some?
  {
    var n := |actions| - 1;
    RunSnoc(INIT, actions);
    var w := Run(INIT, actions[..n]);
    if Awaits(w, t) {
      i := StampFound(actions[..n], t);
      assert actions[..n][..i] == actions[..i];
    } else {
      i := n;
    }
  }

  lemma {:induction false} UndisturbedHasNone(w: World, rest: seq<Action>, t: Token, j: nat)
    requires Undisturbed(w, rest, t) && j < |rest|
    ensures rest[j] !in {Finish(t, true), Finish(t, false), MarkFailed(t)} && !rest[j].Edit? && !rest[j].Delete?
    decreases |rest|
  {
    if j > 0 { UndisturbedHasNone(Step(w, rest[0]), rest[1..], t, j - 1); }
  }

  /** In every run, a segment still pending for `t` was stamped for it, and since then its job has
      neither finished nor crashed, and there was no edit. */
  lemma PendingMeansUnanswered(actions: seq<Action>, t: Token)
    requires Awaits(Run(INIT, actions), t)
    ensures exists i :: 0 <= i < |actions| && actions[i] == Stamp(t)
              && forall j :: i < j < |actions| ==>
                   actions[j] !in {Finish(t, true), Finish(t, false), MarkFailed(t)} && !actions[j].Edit?
  {
    var i := StampFound(actions, t);
    var w, rest := Run(INIT, actions[..i]), actions[i + 1..];
    RunKeepsInv(INIT, actions[..i]);
    RunSplit(INIT, actions, i);
    assert actions[i..][1..] == rest;
    PendingExactlyWhileUndisturbed(w, t, rest);
    forall j | i < j < |actions|
      ensures actions[j] !in {Finish(t, true), Finish(t, false), MarkFailed(t)} && !actions[j].Edit?
    {
      UndisturbedHasNone(Step(w, Stamp(t)), rest, t, j - i - 1);
    }
  }

  // ------------------------------------------------------ what an edit or reset leaves

  /** Writes the line: an edit, a reset, the deletion, or a verdict that lands. */
  predicate WritesLine(w: World, a: Action) {
    a.Edit? || a.ResetRoute? || a.Delete? || (a.Finish? && a.found && Awaits(w, a.token))
  }

  ghost predicate LineSpared(w: World, rest: seq<Action>)
    decreases |rest|
  {
    rest == [] || (!WritesLine(w, rest[0]) && LineSpared(Step(w, rest[0]), rest[1..]))
  }

  lemma {:induction false} LineStands(w: World, rest: seq<Action>)
    requires w.segment.Some? && LineSpared(w, rest)
    ensures var w' := Run(w, rest);
            && w'.segment.Some? && w'.segment.value.line == w.segment.value.line
            && w'.segment.value.edited == w.segment.value.edited
    decreases |rest|
  {
    if rest != [] { LineStands(Step(w, rest[0]), rest[1..]); }
  }

  /** A hand-drawn track stays, with its flag, until the next edit, reset or deletion, or until a
      route is found by a trigger that stamped after it; an older job cannot take it away. */
  lemma EditStands(w: World, drawing: int, rest: seq<Action>)
    requires w.segment.Some? && LineSpared(Step(w, Edit(drawing)), rest)
    ensures var w' := Run(Step(w, Edit(drawing)), rest);
            w'.segment.Some? && w'.segment.value.line == Some(Drawn(drawing)) && w'.segment.value.edited
    ensures forall t :: !WritesLine(Step(w, Edit(drawing)), Finish(t, true))
  {
    LineStands(Step(w, Edit(drawing)), rest);
  }

  /** A reset route stays empty as long, and is as much edited as before. */
  lemma ResetStands(w: World, rest: seq<Action>)
    requires w.segment.Some? && LineSpared(Step(w, ResetRoute), rest)
    ensures var w' := Run(Step(w, ResetRoute), rest);
            w'.segment.Some? && w'.segment.value.line == None && w'.segment.value.edited == w.segment.value.edited
  {
    LineStands(Step(w, ResetRoute), rest);
  }

  /** A deleted segment stays deleted: nothing is written any more. */
  lemma {:induction false} DeletedForGood(w: World, rest: seq<Action>)
    ensures Run(Step(w, Delete), rest).segment == None && Run(Step(w, Delete), rest).log == w.log
  {
    NothingWritten(Step(w, Delete), rest);
  }

  lemma {:induction false} NothingWritten(w: World, rest: seq<Action>)
    requires w.segment.None?
    ensures Run(w, rest).segment == None && Run(w, rest).log == w.log
    decreases |rest|
  {
    if rest != [] { NothingWritten(Step(w, rest[0]), rest[1..]); }
  }

  lemma AwaitedIsUsed(w: World, t: Token)
    requires Inv(w) && Awaits(w, t)
    ensures Used(w.log, t)
  {
    var i := CurrentAnswers(w.log, t);
    assert Stamped(t) in w.log;
  }

  /** A fresh trigger whose route is found, with nothing in between: it replaces the line, unless
      the segment was edited and the trigger is not forced; then nothing is written. */
  lemma TriggerResolvesExactly(w: World, t: Token, force: bool)
    requires Inv(w) && w.segment.Some? && !Used(w.log, t)
    ensures Run(w, [Ask(t, force), Stamp(t), Finish(t, true)]).segment
         == if w.segment.value.edited && !force then w.segment
            else Some(Segment(Resolved, None, Some(Routed(t)), false))
  {
    var actions := [Ask(t, force), Stamp(t), Finish(t, true)];
    var w1 := Step(w, actions[0]);
    var w2 := Step(w1, actions[1]);
    assert actions[1..][1..] == actions[2..] && actions[2..][1..] == [];
    assert Run(w, actions) == Run(w1, actions[1..]) == Run(w2, actions[2..]) == Run(Step(w2, actions[2]), []);
    if t in w.asking { AskedIsUsed(w.log, t); }
    if Awaits(w, t) { AwaitedIsUsed(w, t); }
  }
}
