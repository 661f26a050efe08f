/**
 What the cache protocol (`api/geo.py`) does over whole runs, besides keeping payloads fresh: every
 payload comes from a load of its own process, each cache holds what was last put into it, every
 bust covers the commits made before it was called, and every request is answered once.
 */
module CacheRuns {
  import opened Wrappers
  import opened CacheProtocol

  lemma RunSnoc(s: State, actions: seq<Action>)
    requires actions != []
    ensures var n := |actions| - 1; Run(s, actions) == Step(Run(s, actions[..n]), actions[n])
  {
    var n := |actions| - 1;
    assert actions == actions[..n] + [actions[n]];
    RunConcat(s, actions[..n], [actions[n]]);
    RunOne(Run(s, actions[..n]), actions[n]);
  }

  /** The request that action `a` moves, if it moves one. */
  predicate Moves(s: State, a: Action) {
    a.Advance? && a.tid in s.threads && s.threads[a.tid].pid in s.procs
  }

  // ------------------------------------------------------------- where payloads come from

  /** Action `a` is a request of process `p` reading the database. */
  predicate Loads(s: State, a: Action, p: Pid) {
    && Moves(s, a) && s.threads[a.tid].pid == p
    && (s.threads[a.tid].pc.Load? || s.threads[a.tid].pc.TrackLoad?)
  }

  ghost predicate LoadedAt(s0: State, actions: seq<Action>, i: int, p: Pid, version: nat) {
    && 0 <= i < |actions|
    && Loads(Run(s0, actions[..i]), actions[i], p) && Run(s0, actions[..i]).db == version
  }

  /** Some request of process `p` read the database at `version`. */
  ghost predicate Loaded(s0: State, actions: seq<Action>, p: Pid, version: nat) {
    exists i :: LoadedAt(s0, actions, i, p, version)
  }

  /** The versions of the payloads a request has in hand. */
  predicate Carries(pc: Pc, version: nat) {
    match pc
    case Check(_, _, e) => e.version == version
    case TrackCheck(_, _, _, e) => e.version == version
    case TrackStoreCheck(_, _, _, v) => v == version
    case TrackInsert(_, _, _, v) => v == version
    case StoreCheck(_, _, v) => v == version
    case Insert(_, _, v) => v == version
    case _ => false
  }

  ghost predicate Cached(s: State, p: Pid, version: nat) {
    && p in s.procs
    && ((exists v :: v in s.procs[p].bytes && s.procs[p].bytes[v].version == version)
        || (s.procs[p].track.Some? && s.procs[p].track.value.version == version))
  }

  ghost predicate InHand(s: State, p: Pid, version: nat) {
    exists t :: t in s.threads && s.threads[t].pid == p && Carries(s.threads[t].pc, version)
  }

  ghost predicate Known(s: State, a: Action, p: Pid, version: nat) {
    Cached(s, p, version) || InHand(s, p, version) || (Loads(s, a, p) && s.db == version)
  }

  /** What a step puts into a cache was in hand, or there before. */
  lemma CachedWasKnown(s: State, a: Action, p: Pid, version: nat)
    requires Cached(Step(s, a), p, version)
    ensures Cached(s, p, version) || InHand(s, p, version)
  {
    var s' := Step(s, a);
    if s'.procs[p].track.Some? && s'.procs[p].track.value.version == version {
      if s'.procs[p].track != s.procs[p].track {
        assert Moves(s, a) && s.threads[a.tid].pid == p && s.threads[a.tid].pc.TrackInsert?;
        assert Carries(s.threads[a.tid].pc, version);
      }
    } else {
      var v :| v in s'.procs[p].bytes && s'.procs[p].bytes[v].version == version;
      if v in s.procs[p].bytes && s.procs[p].bytes[v] == s'.procs[p].bytes[v] {
      } else {
        assert Moves(s, a) && s.threads[a.tid].pid == p && s.threads[a.tid].pc.Insert?;
        assert Carries(s.threads[a.tid].pc, version);
      }
    }
  }

  /** What a request has in hand after a step it had before, or took from a cache or the database. */
  lemma InHandWasKnown(s: State, a: Action, p: Pid, version: nat)
    requires InHand(Step(s, a), p, version)
    ensures Known(s, a, p, version)
  {
    var s' := Step(s, a);
    var t :| t in s'.threads && s'.threads[t].pid == p && Carries(s'.threads[t].pc, version);
    if t in s.threads && s.threads[t] == s'.threads[t] {
      assert InHand(s, p, version);
    } else {
      assert Moves(s, a) && a.tid == t && s.threads[t].pid == p;
      TakenWasKnown(s, t, version);
    }
  }

  lemma TakenWasKnown(s: State, t: Tid, version: nat)
    requires Moves(s, Advance(t)) && t in Step(s, Advance(t)).threads
    requires Carries(Step(s, Advance(t)).threads[t].pc, version)
    ensures Known(s, Advance(t), s.threads[t].pid, version)
  {
    var pc, p := s.threads[t].pc, s.procs[s.threads[t].pid];
    if Carries(pc, version) {
      assert InHand(s, s.threads[t].pid, version);
    } else if pc.Lookup? {
      assert pc.v in p.bytes && p.bytes[pc.v].version == version;
    }
  }

  lemma ServedWasKnown(s: State, a: Action, k: nat) returns (p: Pid)
    requires |s.log| <= k < |Step(s, a).log| && Step(s, a).log[k].Served?
    ensures InHand(s, p, Step(s, a).log[k].version)
  {
    p := s.threads[a.tid].pid;
    assert Carries(s.threads[a.tid].pc, Step(s, a).log[k].version);
  }

  lemma LoadedBefore(s0: State, actions: seq<Action>, p: Pid, version: nat)
    requires actions != [] && Loaded(s0, actions[..|actions| - 1], p, version)
    ensures Loaded(s0, actions, p, version)
  {
    var n := |actions| - 1;
    var i :| LoadedAt(s0, actions[..n], i, p, version);
    assert actions[..n][..i] == actions[..i];
    assert LoadedAt(s0, actions, i, p, version);
  }

  /** Every payload in hand or in a cache was read from the database by its own process. */
  lemma {:induction false} PayloadsWereLoaded(
      authority: Authority, pids: set<Pid>, actions: seq<Action>, p: Pid, version: nat)
    requires var s := Run(Init(authority, pids), actions); Cached(s, p, version) || InHand(s, p, version)
    ensures Loaded(Init(authority, pids), actions, p, version)
  {
    var s0 := Init(authority, pids);
    if actions != [] {
      var n := |actions| - 1;
      var s := Run(s0, actions[..n]);
      RunSnoc(s0, actions);
      if Cached(Run(s0, actions), p, version) {
        CachedWasKnown(s, actions[n], p, version);
      } else {
        InHandWasKnown(s, actions[n], p, version);
      }
      if Cached(s, p, version) || InHand(s, p, version) {
        PayloadsWereLoaded(authority, pids, actions[..n], p, version);
        LoadedBefore(s0, actions, p, version);
      } else {
        assert LoadedAt(s0, actions, n, p, version);
      }
    }
  }

  lemma LogGrows(s: State, a: Action)
    ensures s.log <= Step(s, a).log && |Step(s, a).log| <= |s.log| + 1
  {
  }

  /** In every run, whatever the counters: every payload served, from a cache or not, and every
      entry of both caches in every process is what some request, of that very process for an
      entry, read from the database at the version it is said to be of. */
  lemma {:induction false} EveryPayloadWasLoaded(authority: Authority, pids: set<Pid>, actions: seq<Action>)
    ensures var s0 := Init(authority, pids);
            var s := Run(s0, actions);
            && (forall k :: 0 <= k < |s.log| && s.log[k].Served? ==>
                  exists p :: Loaded(s0, actions, p, s.log[k].version))
            && (forall p, v :: p in s.procs && v in s.procs[p].bytes ==>
                  Loaded(s0, actions, p, s.procs[p].bytes[v].version))
            && (forall p :: p in s.procs && s.procs[p].track.Some? ==>
                  Loaded(s0, actions, p, s.procs[p].track.value.version))
  {
    var s0 := Init(authority, pids);
    var s := Run(s0, actions);
    forall p, v | p in s.procs && v in s.procs[p].bytes ensures Loaded(s0, actions, p, s.procs[p].bytes[v].version) {
      PayloadsWereLoaded(authority, pids, actions, p, s.procs[p].bytes[v].version);
    }
    forall p | p in s.procs && s.procs[p].track.Some? ensures Loaded(s0, actions, p, s.procs[p].track.value.version) {
      PayloadsWereLoaded(authority, pids, actions, p, s.procs[p].track.value.version);
    }
    forall k | 0 <= k < |s.log| && s.log[k].Served? ensures exists p :: Loaded(s0, actions, p, s.log[k].version) {
      var p := ServedWasLoaded(authority, pids, actions, k);
    }
  }

  lemma {:induction false} ServedWasLoaded(
      authority: Authority, pids: set<Pid>, actions: seq<Action>, k: nat) returns (p: Pid)
    requires k < |Run(Init(authority, pids), actions).log| && Run(Init(authority, pids), actions).log[k].Served?
    ensures Loaded(Init(authority, pids), actions, p, Run(Init(authority, pids), actions).log[k].version)
  {
    var s0, n := Init(authority, pids), |actions| - 1;
    var s := Run(s0, actions[..n]);
    RunSnoc(s0, actions);
    LogGrows(s, actions[n]);
    var version := Run(s0, actions).log[k].version;
    if k < |s.log| {
      p := ServedWasLoaded(authority, pids, actions[..n], k);
    } else {
      p := ServedWasKnown(s, actions[n], k);
      PayloadsWereLoaded(authority, pids, actions[..n], p, version);
    }
    LoadedBefore(s0, actions, p, version);
  }

  // ------------------------------------------------------------ what the caches hold

  /** Action `a` is a request of process `p` moving on from `pc`. */
  predicate MovesFrom(s: State, a: Action, p: Pid, pc: Pc) {
    Moves(s, a) && s.threads[a.tid].pid == p && s.threads[a.tid].pc == pc
  }

  /** Takes the entry of `v` out of the byte cache of `p`, or puts another one there: it is
      forgotten, a bust of that process drops it, a check finds it superseded, or an insert. */
  predicate TouchesBytes(s: State, a: Action, p: Pid, v: Variant) {
    || a == Forget(p, v)
    || (Moves(s, a) && s.threads[a.tid].pid == p &&
        match s.threads[a.tid].pc
        case DropBytes(_) => true
        case Check(u, _, e) => u == v && e.gen != |CounterOf(s, p)|
        case Insert(u, _, _) => u == v
        case _ => false)
  }

  lemma StepBytes(s: State, a: Action, p: Pid, v: Variant)
    requires p in s.procs
    ensures p in Step(s, a).procs
    ensures !TouchesBytes(s, a, p, v) ==> Get(Step(s, a).procs[p].bytes, v) == Get(s.procs[p].bytes, v)
    ensures forall e :: TouchesBytes(s, a, p, v) ==>
              (Get(Step(s, a).procs[p].bytes, v) == Some(e) <==> MovesFrom(s, a, p, Insert(v, e.gen, e.version)))
  {
    if Moves(s, a) {
      if IsTrack(s.threads[a.tid].pc) { TrackSparesBytes(s, a.tid, p); }
      if IsBust(s.threads[a.tid].pc) { BustDropsBytes(s, a.tid, p); }
    }
  }

  lemma TrackSparesBytes(s: State, t: Tid, p: Pid)
    requires Moves(s, Advance(t)) && IsTrack(s.threads[t].pc) && p in s.procs
    ensures p in AdvanceTrack(s, t).procs && AdvanceTrack(s, t).procs[p].bytes == s.procs[p].bytes
  {
  }

  lemma BustDropsBytes(s: State, t: Tid, p: Pid)
    requires Moves(s, Advance(t)) && IsBust(s.threads[t].pc) && p in s.procs
    ensures p in AdvanceBust(s, t).procs
    ensures AdvanceBust(s, t).procs[p].bytes
         == if s.threads[t].pc.DropBytes? && s.threads[t].pid == p then map[] else s.procs[p].bytes
  {
  }

  ghost predicate BytesPutAt(s0: State, actions: seq<Action>, i: int, p: Pid, v: Variant, e: Entry) {
    && 0 <= i < |actions| && MovesFrom(Run(s0, actions[..i]), actions[i], p, Insert(v, e.gen, e.version))
    && forall j :: i < j < |actions| ==> !TouchesBytes(Run(s0, actions[..j]), actions[j], p, v)
  }

  lemma BytesPutBefore(s0: State, actions: seq<Action>, i: int, p: Pid, v: Variant, e: Entry)
    requires actions != [] && i < |actions| - 1
    ensures BytesPutAt(s0, actions, i, p, v, e) <==>
              && BytesPutAt(s0, actions[..|actions| - 1], i, p, v, e)
              && !TouchesBytes(Run(s0, actions[..|actions| - 1]), actions[|actions| - 1], p, v)
  {
    var n := |actions| - 1;
    assert forall j :: 0 <= j < n ==> actions[..n][..j] == actions[..j];
  }

  lemma BytesPutLast(s0: State, actions: seq<Action>, p: Pid, v: Variant, e: Entry)
    requires actions != []
    ensures BytesPutAt(s0, actions, |actions| - 1, p, v, e) <==>
              MovesFrom(Run(s0, actions[..|actions| - 1]), actions[|actions| - 1], p, Insert(v, e.gen, e.version))
  {
  }

  /** In every run an entry is in the byte cache of a process if and only if a request of that
      process has put it there and nothing there has touched it since. */
  lemma {:induction false} BytesExactlyLastPut(
      authority: Authority, pids: set<Pid>, actions: seq<Action>, p: Pid, v: Variant, e: Entry)
    requires p in pids
    ensures var s0 := Init(authority, pids);
            && p in Run(s0, actions).procs
            && (Get(Run(s0, actions).procs[p].bytes, v) == Some(e) <==> exists i :: BytesPutAt(s0, actions, i, p, v, e))
  {
    var s0 := Init(authority, pids);
    if actions != [] {
      var n := |actions| - 1;
      var s, a := Run(s0, actions[..n]), actions[n];
      RunSnoc(s0, actions);
      BytesExactlyLastPut(authority, pids, actions[..n], p, v, e);
      StepBytes(s, a, p, v);
      BytesPutLast(s0, actions, p, v, e);
      forall i | i < n ensures BytesPutAt(s0, actions, i, p, v, e)
                          <==> BytesPutAt(s0, actions[..n], i, p, v, e) && !TouchesBytes(s, a, p, v) {
        BytesPutBefore(s0, actions, i, p, v, e);
      }
      assert forall i :: BytesPutAt(s0, actions, i, p, v, e) ==> i <= n;
      if TouchesBytes(s, a, p, v) {
        assert (exists i :: BytesPutAt(s0, actions, i, p, v, e)) <==> BytesPutAt(s0, actions, n, p, v, e);
      } else {
        assert !MovesFrom(s, a, p, Insert(v, e.gen, e.version));
        assert forall i :: BytesPutAt(s0, actions[..n], i, p, v, e) ==> i < n;
      }
    }
  }

  predicate TouchesTrack(s: State, a: Action, p: Pid) {
    || a == ForgetTrack(p)
    || (Moves(s, a) && s.threads[a.tid].pid == p &&
        match s.threads[a.tid].pc
        case DropTrack(_) => true
        case TrackCheck(_, _, _, e) => e.gen != |CounterOf(s, p)|
        case TrackInsert(_, _, _, _) => true
        case _ => false)
  }

  /** Action `a` puts `e` into the trip cache of `p`. */
  predicate PutsTrack(s: State, a: Action, p: Pid, e: Entry) {
    && Moves(s, a) && s.threads[a.tid].pid == p && s.threads[a.tid].pc.TrackInsert?
    && s.threads[a.tid].pc.tg == e.gen && s.threads[a.tid].pc.version == e.version
  }

  lemma StepTrack(s: State, a: Action, p: Pid)
    requires p in s.procs
    ensures p in Step(s, a).procs
    ensures !TouchesTrack(s, a, p) ==> Step(s, a).procs[p].track == s.procs[p].track
    ensures forall e :: TouchesTrack(s, a, p) ==> (Step(s, a).procs[p].track == Some(e) <==> PutsTrack(s, a, p, e))
  {
  }

  ghost predicate TrackPutAt(s0: State, actions: seq<Action>, i: int, p: Pid, e: Entry) {
    && 0 <= i < |actions| && PutsTrack(Run(s0, actions[..i]), actions[i], p, e)
    && forall j :: i < j < |actions| ==> !TouchesTrack(Run(s0, actions[..j]), actions[j], p)
  }

  lemma TrackPutBefore(s0: State, actions: seq<Action>, i: int, p: Pid, e: Entry)
    requires actions != [] && i < |actions| - 1
    ensures TrackPutAt(s0, actions, i, p, e) <==>
              && TrackPutAt(s0, actions[..|actions| - 1], i, p, e)
              && !TouchesTrack(Run(s0, actions[..|actions| - 1]), actions[|actions| - 1], p)
  {
    var n := |actions| - 1;
    assert forall j :: 0 <= j < n ==> actions[..n][..j] == actions[..j];
  }

  lemma TrackPutLast(s0: State, actions: seq<Action>, p: Pid, e: Entry)
    requires actions != []
    ensures TrackPutAt(s0, actions, |actions| - 1, p, e) <==>
              PutsTrack(Run(s0, actions[..|actions| - 1]), actions[|actions| - 1], p, e)
  {
  }

  /** The same for the cache of prepared trips. */
  lemma {:induction false} TrackExactlyLastPut(
      authority: Authority, pids: set<Pid>, actions: seq<Action>, p: Pid, e: Entry)
    requires p in pids
    ensures var s0 := Init(authority, pids);
            && p in Run(s0, actions).procs
            && (Run(s0, actions).procs[p].track == Some(e) <==> exists i :: TrackPutAt(s0, actions, i, p, e))
  {
    var s0 := Init(authority, pids);
    if actions != [] {
      var n := |actions| - 1;
      var s, a := Run(s0, actions[..n]), actions[n];
      RunSnoc(s0, actions);
      TrackExactlyLastPut(authority, pids, actions[..n], p, e);
      StepTrack(s, a, p);
      TrackPutLast(s0, actions, p, e);
      forall i | i < n ensures TrackPutAt(s0, actions, i, p, e)
                          <==> TrackPutAt(s0, actions[..n], i, p, e) && !TouchesTrack(s, a, p) {
        TrackPutBefore(s0, actions, i, p, e);
      }
      assert forall i :: TrackPutAt(s0, actions, i, p, e) ==> i <= n;
      if TouchesTrack(s, a, p) {
        assert (exists i :: TrackPutAt(s0, actions, i, p, e)) <==> TrackPutAt(s0, actions, n, p, e);
      } else {
        assert !PutsTrack(s, a, p, e);
        assert forall i :: TrackPutAt(s0, actions[..n], i, p, e) ==> i < n;
      }
    }
  }

  // ------------------------------------------------------------- what a bust covers

  predicate AtStep(s: State, a: Action, t: Tid, pc: Pc) {
    a == Advance(t) && Moves(s, a) && s.threads[t].pc == pc
  }

  /** Request `t` committed at `i` and called its bust at `j`, at version `since`. */
  ghost predicate BustedFor(s0: State, actions: seq<Action>, t: Tid, i: int, j: int, since: nat) {
    && 0 <= i < j < |actions|
    && AtStep(Run(s0, actions[..i]), actions[i], t, Commit) && Run(s0, actions[..i]).db < since
    && AtStep(Run(s0, actions[..j]), actions[j], t, CallBust) && Run(s0, actions[..j]).db == since
  }

  ghost predicate Committed(s0: State, actions: seq<Action>, t: Tid) {
    exists i :: 0 <= i < |actions| && AtStep(Run(s0, actions[..i]), actions[i], t, Commit)
                && Run(s0, actions[..i]).db < Run(s0, actions).db
  }

  predicate Busting(pc: Pc, since: nat) {
    (pc.BumpShared? || pc.DropBytes? || pc.DropTrack?) && pc.since == since
  }

  ghost predicate Covered(s0: State, actions: seq<Action>, t: Tid, since: nat) {
    exists i, j :: BustedFor(s0, actions, t, i, j, since)
  }

  lemma CoveredBefore(s0: State, actions: seq<Action>, t: Tid, since: nat)
    requires actions != [] && Covered(s0, actions[..|actions| - 1], t, since)
    ensures Covered(s0, actions, t, since)
  {
    var n := |actions| - 1;
    var i, j :| BustedFor(s0, actions[..n], t, i, j, since);
    assert actions[..n][..i] == actions[..i] && actions[..n][..j] == actions[..j];
    assert BustedFor(s0, actions, t, i, j, since);
  }

  lemma CommittedBefore(s0: State, actions: seq<Action>, t: Tid)
    requires actions != [] && Committed(s0, actions[..|actions| - 1], t)
    ensures Committed(s0, actions, t)
  {
    var n := |actions| - 1;
    var i :| 0 <= i < n && AtStep(Run(s0, actions[..n][..i]), actions[..n][i], t, Commit)
             && Run(s0, actions[..n][..i]).db < Run(s0, actions[..n]).db;
    assert actions[..n][..i] == actions[..i];
    RunSnoc(s0, actions);
  }

  /** A mutation gets to call its bust by committing, and on from there by the call. */
  lemma MutationMoves(s: State, a: Action, t: Tid)
    requires t in s.threads && t in Step(s, a).threads
    ensures var pc, pc' := s.threads[t].pc, Step(s, a).threads[t].pc;
            && (pc'.CallBust? && !pc.CallBust? ==> AtStep(s, a, t, Commit) && Step(s, a).db > s.db)
            && (forall since :: Busting(pc', since) && !Busting(pc, since) ==>
                  AtStep(s, a, t, CallBust) && s.db == since)
  {
  }

  lemma {:induction false} MutationsCovered(s0: State, actions: seq<Action>, t: Tid)
    requires s0.threads == map[] && t in Run(s0, actions).threads
    ensures Run(s0, actions).threads[t].pc.CallBust? ==> Committed(s0, actions, t)
    ensures forall since :: Busting(Run(s0, actions).threads[t].pc, since) ==> Covered(s0, actions, t, since)
  {
    if actions != [] {
      var n := |actions| - 1;
      var s, a := Run(s0, actions[..n]), actions[n];
      RunSnoc(s0, actions);
      if t in s.threads {
        MutationsCovered(s0, actions[..n], t);
        MutationMoves(s, a, t);
        var pc, pc' := s.threads[t].pc, Run(s0, actions).threads[t].pc;
        if pc'.CallBust? && pc.CallBust? { CommittedBefore(s0, actions, t); }
        forall since | Busting(pc', since) ensures Covered(s0, actions, t, since) {
          if Busting(pc, since) { CoveredBefore(s0, actions, t, since); } else { CallCovers(s0, actions, t); }
        }
      }
    }
  }

  lemma CallCovers(s0: State, actions: seq<Action>, t: Tid)
    requires actions != [] && Committed(s0, actions[..|actions| - 1], t)
    requires AtStep(Run(s0, actions[..|actions| - 1]), actions[|actions| - 1], t, CallBust)
    ensures Covered(s0, actions, t, Run(s0, actions[..|actions| - 1]).db)
  {
    var n := |actions| - 1;
    var i :| 0 <= i < n && AtStep(Run(s0, actions[..n][..i]), actions[..n][i], t, Commit)
             && Run(s0, actions[..n][..i]).db < Run(s0, actions[..n]).db;
    assert actions[..n][..i] == actions[..i];
    assert BustedFor(s0, actions, t, i, n, Run(s0, actions[..n]).db);
  }

  /** In every run, each completed bust belongs to a request that had committed before it called
      the bust, and is recorded with the database version at that call, so it stands for that
      commit and all earlier ones. */
  lemma {:induction false} EveryBustCovers(
      authority: Authority, pids: set<Pid>, actions: seq<Action>, k: nat) returns (t: Tid)
    requires k < |Run(Init(authority, pids), actions).log| && Run(Init(authority, pids), actions).log[k].Busted?
    ensures Covered(Init(authority, pids), actions, t, Run(Init(authority, pids), actions).log[k].since)
  {
    var s0, n := Init(authority, pids), |actions| - 1;
    var s, since := Run(s0, actions[..n]), Run(s0, actions).log[k].since;
    RunSnoc(s0, actions);
    LogGrows(s, actions[n]);
    if k < |s.log| {
      t := EveryBustCovers(authority, pids, actions[..n], k);
    } else {
      t := actions[n].tid;
      MutationsCovered(s0, actions[..n], t);
      assert Busting(s.threads[t].pc, since);
    }
    CoveredBefore(s0, actions, t, since);
  }

  // ------------------------------------------------------- every request is answered

  /** How many steps a request takes at most. */
  function StepsLeft(pc: Pc): nat {
    match pc
    case Commit => 5
    case CallBust => 4
    case BumpShared(_) => 3
    case DropBytes(_) => 2
    case DropTrack(_) => 1
    case Lookup(_, _) => 13
    case Check(_, _, _) => 12
    case ReadGen(_, _) => 11
    case TrackLookup(_, _, locked) => if locked then 8 else 10
    case TrackCheck(_, _, locked, _) => if locked then 7 else 9
    case TrackGen(_, _) => 6
    case TrackLoad(_, _, _) => 5
    case TrackStoreCheck(_, _, _, _) => 4
    case Load(_, _) => 3
    case TrackInsert(_, _, _, _) => 3
    case StoreCheck(_, _, _) => 2
    case Insert(_, _, _) => 1
  }

  /** From `s` to `s'` request `t` has moved one step on, or has ended and been recorded. */
  ghost predicate MovedOn(s: State, s': State, t: Tid) {
    && t in s.threads && s'.procs.Keys == s.procs.Keys
    && if t in s'.threads
       then && s'.threads == s.threads[t := s.threads[t].(pc := s'.threads[t].pc)] && s'.log == s.log
            && StepsLeft(s'.threads[t].pc) < StepsLeft(s.threads[t].pc)
       else s'.threads == s.threads - {t} && |s'.log| == |s.log| + 1
  }

  lemma BustMoves(s: State, t: Tid)
    requires Moves(s, Advance(t)) && IsBust(s.threads[t].pc)
    ensures MovedOn(s, AdvanceBust(s, t), t)
  {
    assert AdvanceBust(s, t).procs.Keys == s.procs.Keys;
  }

  lemma TrackMoves(s: State, t: Tid)
    requires Moves(s, Advance(t)) && IsTrack(s.threads[t].pc)
    ensures MovedOn(s, AdvanceTrack(s, t), t)
  {
    assert AdvanceTrack(s, t).procs.Keys == s.procs.Keys;
  }

  lemma ReadMoves(s: State, t: Tid)
    requires Moves(s, Advance(t)) && !IsBust(s.threads[t].pc) && !IsTrack(s.threads[t].pc)
    ensures MovedOn(s, AdvanceRead(s, t), t)
  {
    assert AdvanceRead(s, t).procs.Keys == s.procs.Keys;
  }

  lemma EveryMove(s: State, t: Tid)
    requires Moves(s, Advance(t))
    ensures MovedOn(s, Step(s, Advance(t)), t)
  {
    if IsBust(s.threads[t].pc) { BustMoves(s, t); }
    else if IsTrack(s.threads[t].pc) { TrackMoves(s, t); }
    else { ReadMoves(s, t); }
  }

  lemma StepProgresses(s: State, a: Action, t: Tid)
    requires t in s.threads && s.threads[t].pid in s.procs
    ensures t in Step(s, a).threads ==>
              && Step(s, a).threads[t].pid in Step(s, a).procs
              && StepsLeft(Step(s, a).threads[t].pc) + (if a == Advance(t) then 1 else 0) <= StepsLeft(s.threads[t].pc)
    ensures t in Step(s, a).threads || (a == Advance(t) && |Step(s, a).log| == |s.log| + 1)
  {
    if Moves(s, a) { EveryMove(s, a.tid); }
  }

  function Turns(actions: seq<Action>, t: Tid): nat {
    if actions == [] then 0 else (if actions[0] == Advance(t) then 1 else 0) + Turns(actions[1..], t)
  }

  /** However requests are interleaved, one that is given as many turns as it has steps left ends,
      and its end is recorded. No request has more than 13 steps. */
  lemma {:induction false} EveryRequestEnds(s: State, rest: seq<Action>, t: Tid) returns (k: nat)
    requires t in s.threads && s.threads[t].pid in s.procs && Turns(rest, t) >= StepsLeft(s.threads[t].pc)
    ensures k < |rest| && rest[k] == Advance(t) && t in Run(s, rest[..k]).threads
    ensures var before, after := Run(s, rest[..k]), Run(s, rest[..k + 1]);
            t !in after.threads && |after.log| == |before.log| + 1
    ensures StepsLeft(s.threads[t].pc) <= 13
    decreases |rest|
  {
    var s' := Step(s, rest[0]);
    StepProgresses(s, rest[0], t);
    if t in s'.threads {
      var k' := EveryRequestEnds(s', rest[1..], t);
      k := k' + 1;
      assert rest[..k][1..] == rest[1..][..k'] && rest[..k + 1][1..] == rest[1..][..k' + 1];
    } else {
      k := 0;
      assert rest[..1] == [rest[0]];
      RunOne(s, rest[0]);
    }
  }

  function Begins(s: State, a: Action): bool {
    a.Begin? && a.tid !in s.threads && a.pid in s.procs
  }

  ghost function Begun(s0: State, actions: seq<Action>): nat {
    if actions == [] then 0
    else
      var n := |actions| - 1;
      Begun(s0, actions[..n]) + if Begins(Run(s0, actions[..n]), actions[n]) then 1 else 0
  }

  lemma StepCounts(s: State, a: Action)
    ensures |Step(s, a).log| + |Step(s, a).threads| == |s.log| + |s.threads| + if Begins(s, a) then 1 else 0
  {
    if Moves(s, a) {
      EveryMove(s, a.tid);
      OneFewer(s.threads, a.tid);
    }
  }

  lemma OneFewer(threads: map<Tid, Thread>, t: Tid)
    requires t in threads
    ensures |threads - {t}| == |threads| - 1
  {
    assert (threads - {t}).Keys == threads.Keys - {t};
    assert |threads.Keys| == |threads| && |(threads - {t}).Keys| == |threads - {t}|;
  }

  /** In every run each request begun is either under way or has been recorded once. */
  lemma {:induction false} AnsweredOnce(s0: State, actions: seq<Action>)
    requires s0.threads == map[] && s0.log == []
    ensures |Run(s0, actions).log| + |Run(s0, actions).threads| == Begun(s0, actions)
  {
    if actions != [] {
      RunSnoc(s0, actions);
      AnsweredOnce(s0, actions[..|actions| - 1]);
      StepCounts(Run(s0, actions[..|actions| - 1]), actions[|actions| - 1]);
    }
  }

  // --------------------------------------------------- hits are used, stale results are not kept

  /** A byte entry of the current generation is what a lookup serves, without a load. */
  lemma HitIsServed(s: State, t: Tid, v: Variant, layered: bool, e: Entry)
    requires t in s.threads && s.threads[t].pid in s.procs && s.threads[t].pc == Lookup(v, layered)
    requires Get(s.procs[s.threads[t].pid].bytes, v) == Some(e) && e.gen == |CounterOf(s, s.threads[t].pid)|
    ensures var s' := Step(Step(s, Advance(t)), Advance(t));
            t !in s'.threads && s'.log == s.log + [Served(s.threads[t].begun, true, e.version)]
  {
  }

  /** A trip of the current generation is what a layered read goes on with, without a load. */
  lemma TripIsUsed(s: State, t: Tid, v: Variant, g: nat, locked: bool, e: Entry)
    requires t in s.threads && s.threads[t].pid in s.procs && s.threads[t].pc == TrackLookup(v, g, locked)
    requires s.procs[s.threads[t].pid].track == Some(e) && e.gen == |CounterOf(s, s.threads[t].pid)|
    ensures var s' := Step(Step(s, Advance(t)), Advance(t));
            t in s'.threads && s'.threads[t].pc == StoreCheck(v, g, e.version)
  {
  }

  /** The check in front of an insert found the generation still current. */
  ghost predicate CheckedAt(s0: State, actions: seq<Action>, i: int, t: Tid, pc: Pc, gen: nat) {
    && 0 <= i < |actions| && AtStep(Run(s0, actions[..i]), actions[i], t, pc)
    && |CounterOf(Run(s0, actions[..i]), Run(s0, actions[..i]).threads[t].pid)| == gen
  }

  ghost predicate Checked(s0: State, actions: seq<Action>, t: Tid, pc: Pc) {
    match pc
    case Insert(v, g, version) => exists i :: CheckedAt(s0, actions, i, t, StoreCheck(v, g, version), g)
    case TrackInsert(v, g, tg, version) =>
      exists i :: CheckedAt(s0, actions, i, t, TrackStoreCheck(v, g, tg, version), tg)
    case _ => true
  }

  lemma CheckedBefore(s0: State, actions: seq<Action>, t: Tid, pc: Pc)
    requires actions != [] && Checked(s0, actions[..|actions| - 1], t, pc)
    ensures Checked(s0, actions, t, pc)
  {
    var n := |actions| - 1;
    if pc.Insert? {
      var i :| CheckedAt(s0, actions[..n], i, t, StoreCheck(pc.v, pc.g, pc.version), pc.g);
      assert actions[..n][..i] == actions[..i];
      assert CheckedAt(s0, actions, i, t, StoreCheck(pc.v, pc.g, pc.version), pc.g);
    } else if pc.TrackInsert? {
      var i :| CheckedAt(s0, actions[..n], i, t, TrackStoreCheck(pc.v, pc.g, pc.tg, pc.version), pc.tg);
      assert actions[..n][..i] == actions[..i];
      assert CheckedAt(s0, actions, i, t, TrackStoreCheck(pc.v, pc.g, pc.tg, pc.version), pc.tg);
    }
  }

  lemma CheckedNow(s0: State, actions: seq<Action>, t: Tid)
    requires actions != []
    requires var s := Run(s0, actions[..|actions| - 1]);
             && t in s.threads && t in Step(s, actions[|actions| - 1]).threads
             && Step(s, actions[|actions| - 1]).threads[t] != s.threads[t]
    ensures Checked(s0, actions, t, Step(Run(s0, actions[..|actions| - 1]), actions[|actions| - 1]).threads[t].pc)
  {
    var n := |actions| - 1;
    var s := Run(s0, actions[..n]);
    var pc, pc' := s.threads[t].pc, Step(s, actions[n]).threads[t].pc;
    if pc'.Insert? {
      assert CheckedAt(s0, actions, n, t, pc, pc'.g);
    } else if pc'.TrackInsert? {
      assert CheckedAt(s0, actions, n, t, pc, pc'.tg);
    }
  }

  /** In every run, a request about to insert into either cache has just found, in a check of its
      own, that the generation it tags the payload with was still the current one. */
  lemma {:induction false} OnlyCheckedInserts(s0: State, actions: seq<Action>, t: Tid)
    requires s0.threads == map[] && t in Run(s0, actions).threads
    ensures Checked(s0, actions, t, Run(s0, actions).threads[t].pc)
  {
    if actions != [] {
      var n := |actions| - 1;
      var s := Run(s0, actions[..n]);
      RunSnoc(s0, actions);
      if t in s.threads {
        if Run(s0, actions).threads[t] == s.threads[t] {
          OnlyCheckedInserts(s0, actions[..n], t);
          CheckedBefore(s0, actions, t, s.threads[t].pc);
        } else {
          CheckedNow(s0, actions, t);
        }
      }
    }
  }
}
