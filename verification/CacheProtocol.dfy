/**
 The invalidation protocol of the payload caches (`api/geo.py` and its clients) for one
 project: any number of processes and requests, interleaved step by step.

 A mutation commits and then busts: it bumps the generation counter and drops the entries
 of its own process. A read takes the generation, loads from the database, and stores the
 result under that generation; every cache hit re-checks the entry's generation, outside
 the lock. The database is modelled by its version, the number of commits so far, and a
 payload by the version it was computed from. Eviction, expiry and the stores of other
 projects appear as entries being forgotten at any time.
 */
module CacheProtocol {
  import opened Wrappers

  type Pid = int
  type Tid = int
  type Variant = int

  /** Where the generation counter lives: shared by all processes, or one per process. */
  datatype Authority = Redis | LocalDict

  /** A counter, as the database versions at which it was bumped; its value is their number. */
  type Counter = seq<nat>

  datatype Entry = Entry(version: nat, gen: nat)

  datatype Process = Process(bytes: map<Variant, Entry>, track: Option<Entry>, counter: Counter)

  /** What a request does next. A mutation: `Commit` to `DropTrack`. A cached read: `Lookup`
      to `Insert`; a layered read goes through the prepared trip (`Track...`) instead of
      `Load`, and `locked` says that it holds the build lock. */
  datatype Pc =
    | Commit
    | CallBust
    | BumpShared(since: nat)
    | DropBytes(since: nat)
    | DropTrack(since: nat)
    | Lookup(v: Variant, layered: bool)
    | Check(v: Variant, layered: bool, entry: Entry)
    | ReadGen(v: Variant, layered: bool)
    | Load(v: Variant, g: nat)
    | TrackLookup(v: Variant, g: nat, locked: bool)
    | TrackCheck(v: Variant, g: nat, locked: bool, entry: Entry)
    | TrackGen(v: Variant, g: nat)
    | TrackLoad(v: Variant, g: nat, tg: nat)
    | TrackStoreCheck(v: Variant, g: nat, tg: nat, version: nat)
    | TrackInsert(v: Variant, g: nat, tg: nat, version: nat)
    | StoreCheck(v: Variant, g: nat, version: nat)
    | Insert(v: Variant, g: nat, version: nat)

  /** A request: its process, the length of the event log when it began, and its next step. */
  datatype Thread = Thread(pid: Pid, begun: nat, pc: Pc)

  /** `Busted(since)`: a bust completed that was called at version `since`.
      `Served`: a payload computed from `version` was returned, from the cache if `hit`. */
  datatype Event = Busted(since: nat) | Served(begun: nat, hit: bool, version: nat)

  datatype State = State(
    db: nat, authority: Authority, redis: Counter,
    procs: map<Pid, Process>, threads: map<Tid, Thread>, log: seq<Event>)

  datatype Task = Mutate | Read(v: Variant) | ReadLayered(v: Variant) | Warm(v: Variant)

  datatype Action =
    | Begin(tid: Tid, pid: Pid, task: Task)
    | Advance(tid: Tid)
    | Forget(pid: Pid, v: Variant)
    | ForgetTrack(pid: Pid)

  function Init(authority: Authority, pids: set<Pid>): State {
    State(0, authority, [], map p | p in pids :: Process(map[], None, []), map[], [])
  }

  function CounterOf(s: State, pid: Pid): Counter
    requires pid in s.procs
  {
    if s.authority.Redis? then s.redis else s.procs[pid].counter
  }

  // ------------------------------------------------------------------- the steps

  function FirstPc(task: Task): Pc {
    match task
    case Mutate => Commit
    case Read(v) => Lookup(v, false)
    case ReadLayered(v) => Lookup(v, true)
    case Warm(v) => ReadGen(v, false)
  }

  function Goto(s: State, tid: Tid, pc: Pc): State
    requires tid in s.threads
  {
    s.(threads := s.threads[tid := s.threads[tid].(pc := pc)])
  }

  /** The request ends, returning a payload of `version`. */
  function Serve(s: State, tid: Tid, hit: bool, version: nat): State
    requires tid in s.threads
  {
    s.(threads := s.threads - {tid}, log := s.log + [Served(s.threads[tid].begun, hit, version)])
  }

  function SetProc(s: State, pid: Pid, p: Process): State {
    s.(procs := s.procs[pid := p])
  }

  /** One step of a mutation. The local counter is bumped with the entries dropped, the shared
      one before that. */
  function AdvanceBust(s: State, tid: Tid): State
    requires tid in s.threads && s.threads[tid].pid in s.procs
  {
    var pid := s.threads[tid].pid;
    var p := s.procs[pid];
    match s.threads[tid].pc
    case Commit => Goto(s.(db := s.db + 1), tid, CallBust)
    case CallBust => Goto(s, tid, if s.authority.Redis? then BumpShared(s.db) else DropBytes(s.db))
    case BumpShared(since) => Goto(s.(redis := s.redis + [s.db]), tid, DropBytes(since))
    case DropBytes(since) =>
      Goto(SetProc(s, pid, p.(bytes := map[], counter := p.counter + [s.db])), tid, DropTrack(since))
    case DropTrack(since) =>
      SetProc(s, pid, p.(track := None)).(threads := s.threads - {tid}, log := s.log + [Busted(since)])
    case _ => s
  }

  /** One step of a read in front of the byte cache. */
  function AdvanceRead(s: State, tid: Tid): State
    requires tid in s.threads && s.threads[tid].pid in s.procs
  {
    var pid := s.threads[tid].pid;
    var p := s.procs[pid];
    var gen := |CounterOf(s, pid)|;
    match s.threads[tid].pc
    case Lookup(v, layered) =>
      Goto(s, tid, if v in p.bytes then Check(v, layered, p.bytes[v]) else ReadGen(v, layered))
    case Check(v, layered, e) =>
      if e.gen == gen then Serve(s, tid, true, e.version)
      else Goto(SetProc(s, pid, p.(bytes := p.bytes - {v})), tid, ReadGen(v, layered))
    case ReadGen(v, layered) => Goto(s, tid, if layered then TrackLookup(v, gen, false) else Load(v, gen))
    case Load(v, g) => Goto(s, tid, StoreCheck(v, g, s.db))
    case StoreCheck(v, g, version) =>
      if g == gen then Goto(s, tid, Insert(v, g, version)) else Serve(s, tid, false, version)
    case Insert(v, g, version) =>
      Serve(SetProc(s, pid, p.(bytes := p.bytes[v := Entry(version, g)])), tid, false, version)
    case _ => s
  }

  /** One step of a layered read through the prepared trip. */
  function AdvanceTrack(s: State, tid: Tid): State
    requires tid in s.threads && s.threads[tid].pid in s.procs
  {
    var pid := s.threads[tid].pid;
    var p := s.procs[pid];
    var gen := |CounterOf(s, pid)|;
    match s.threads[tid].pc
    case TrackLookup(v, g, locked) =>
      Goto(s, tid, if p.track.Some? then TrackCheck(v, g, locked, p.track.value)
                   else if locked then TrackGen(v, g) else TrackLookup(v, g, true))
    case TrackCheck(v, g, locked, e) =>
      if e.gen == gen then Goto(s, tid, StoreCheck(v, g, e.version))
      else Goto(SetProc(s, pid, p.(track := None)), tid, if locked then TrackGen(v, g) else TrackLookup(v, g, true))
    case TrackGen(v, g) => Goto(s, tid, TrackLoad(v, g, gen))
    case TrackLoad(v, g, tg) => Goto(s, tid, TrackStoreCheck(v, g, tg, s.db))
    case TrackStoreCheck(v, g, tg, version) =>
      Goto(s, tid, if tg == gen then TrackInsert(v, g, tg, version) else StoreCheck(v, g, version))
    case TrackInsert(v, g, tg, version) =>
      Goto(SetProc(s, pid, p.(track := Some(Entry(version, tg)))), tid, StoreCheck(v, g, version))
    case _ => s
  }

  predicate IsBust(pc: Pc) {
    pc.Commit? || pc.CallBust? || pc.BumpShared? || pc.DropBytes? || pc.DropTrack?
  }

  predicate IsTrack(pc: Pc) {
    pc.TrackLookup? || pc.TrackCheck? || pc.TrackGen? || pc.TrackLoad? || pc.TrackStoreCheck? || pc.TrackInsert?
  }

  /** One action; an action that names no such request or process changes nothing. */
  function Step(s: State, a: Action): State {
    match a
    case Begin(tid, pid, task) =>
      if tid in s.threads || pid !in s.procs then s
      else s.(threads := s.threads[tid := Thread(pid, |s.log|, FirstPc(task))])
    case Advance(tid) =>
      if tid !in s.threads || s.threads[tid].pid !in s.procs then s
      else if IsBust(s.threads[tid].pc) then AdvanceBust(s, tid)
      else if IsTrack(s.threads[tid].pc) then AdvanceTrack(s, tid)
      else AdvanceRead(s, tid)
    case Forget(pid, v) =>
      if pid !in s.procs then s else SetProc(s, pid, s.procs[pid].(bytes := s.procs[pid].bytes - {v}))
    case ForgetTrack(pid) =>
      if pid !in s.procs then s else SetProc(s, pid, s.procs[pid].(track := None))
  }

  function Run(s: State, actions: seq<Action>): State
    decreases |actions|
  {
    if actions == [] then s else Run(Step(s, actions[0]), actions[1..])
  }

  // ---------------------------------------------------------------- what is promised

  /** A hit is at least as new as every commit made before any bust completed by then; any
      payload, hit or miss, is at least as new for the busts completed before its request. */
  ghost predicate Fresh(log: seq<Event>) {
    forall d, k :: 0 <= d < k < |log| && log[d].Busted? && log[k].Served? && (log[k].hit || d < log[k].begun) ==>
      log[d].since <= log[k].version
  }

  /** The counter is one for all processes involved. */
  predicate OneCounter(authority: Authority, pids: set<Pid>) {
    authority.Redis? || forall p, q :: p in pids && q in pids ==> p == q
  }

  // ------------------------------------------------------------------ the invariant

  /** The database version a payload tagged `g` must reach: the one at the bump to `g`. */
  function Floor(c: Counter, g: nat): nat
    requires g <= |c|
  {
    if g == 0 then 0 else c[g - 1]
  }

  ghost predicate Reaches(c: Counter, g: nat, version: nat) {
    g <= |c| && Floor(c, g) <= version
  }

  ghost predicate EntryOk(c: Counter, e: Entry) {
    Reaches(c, e.gen, e.version)
  }

  /** Bumps happen at versions that only grow and never run ahead of the database. */
  ghost predicate CounterOk(c: Counter, db: nat) {
    (forall i, j :: 0 <= i < j < |c| ==> c[i] <= c[j]) && (forall i :: 0 <= i < |c| ==> c[i] <= db)
  }

  /** Every bust completed in `log` had been counted by generation `g`. */
  ghost predicate CountedBy(log: seq<Event>, c: Counter, g: nat) {
    g <= |c| && forall d :: 0 <= d < |log| && log[d].Busted? ==> log[d].since <= Floor(c, g)
  }

  ghost predicate PcOk(c: Counter, log: seq<Event>, db: nat, begun: nat, pc: Pc) {
    begun <= |log| &&
    match pc
    case Commit | CallBust | Lookup(_, _) | ReadGen(_, _) => true
    case BumpShared(since) => since <= db
    case DropBytes(since) => since <= db
    case DropTrack(since) => since <= Floor(c, |c|)
    case Check(_, _, e) => EntryOk(c, e)
    case Load(_, g) => CountedBy(log[..begun], c, g)
    case TrackLookup(_, g, _) => CountedBy(log[..begun], c, g)
    case TrackCheck(_, g, _, e) => CountedBy(log[..begun], c, g) && EntryOk(c, e)
    case TrackGen(_, g) => CountedBy(log[..begun], c, g)
    case TrackLoad(_, g, tg) => CountedBy(log[..begun], c, g) && tg <= |c|
    case TrackStoreCheck(_, g, tg, version) =>
      CountedBy(log[..begun], c, g) && Reaches(c, g, version) && Reaches(c, tg, version)
    case TrackInsert(_, g, tg, version) =>
      CountedBy(log[..begun], c, g) && Reaches(c, g, version) && Reaches(c, tg, version)
    case StoreCheck(_, g, version) => CountedBy(log[..begun], c, g) && Reaches(c, g, version)
    case Insert(_, g, version) => CountedBy(log[..begun], c, g) && Reaches(c, g, version)
  }

  ghost predicate ProcessOk(c: Counter, p: Process) {
    && (forall v :: v in p.bytes ==> EntryOk(c, p.bytes[v]))
    && (p.track.Some? ==> EntryOk(c, p.track.value))
  }

  /** All of the above about the one counter `c` that every process uses. */
  ghost predicate Inv(s: State, c: Counter) {
    && OneCounter(s.authority, s.procs.Keys)
    && (forall p :: p in s.procs ==> CounterOf(s, p) == c)
    && CounterOk(c, s.db)
    && CountedBy(s.log, c, |c|)
    && Fresh(s.log)
    && (forall p :: p in s.procs ==> ProcessOk(c, s.procs[p]))
    && (forall t :: t in s.threads ==> ThreadOk(s, c, s.threads[t]))
  }

  ghost predicate ThreadOk(s: State, c: Counter, t: Thread) {
    t.pid in s.procs && PcOk(c, s.log, s.db, t.begun, t.pc)
      && (t.pc.BumpShared? ==> s.authority.Redis?)
      && (t.pc.DropBytes? && s.authority.Redis? ==> t.pc.since <= Floor(c, |c|))
  }

  // ------------------------------------------------- what other steps cannot break

  lemma ReachesStays(c: Counter, c': Counter, g: nat, version: nat)
    requires c <= c' && Reaches(c, g, version)
    ensures Reaches(c', g, version)
  {
  }

  lemma LastFloorGrows(c: Counter, c': Counter, db: nat)
    requires c <= c' && CounterOk(c', db)
    ensures Floor(c, |c|) <= Floor(c', |c'|)
  {
  }

  lemma ThreadStays(s: State, c: Counter, s': State, c': Counter, t: Thread)
    requires ThreadOk(s, c, t) && c <= c' && s.log <= s'.log && s.db <= s'.db && CounterOk(c', s'.db)
    requires s'.authority == s.authority && s.procs.Keys <= s'.procs.Keys
    ensures ThreadOk(s', c', t)
  {
    LastFloorGrows(c, c', s'.db);
    assert s'.log[..t.begun] == s.log[..t.begun];
  }

  lemma ProcessStays(c: Counter, c': Counter, p: Process)
    requires ProcessOk(c, p) && c <= c'
    ensures ProcessOk(c', p)
  {
    forall v | v in p.bytes ensures EntryOk(c', p.bytes[v]) {
      ReachesStays(c, c', p.bytes[v].gen, p.bytes[v].version);
    }
  }

  /** A step that touches one request, one process, and lets the rest of the state only grow. */
  ghost predicate Local(s: State, c: Counter, s': State, c': Counter, tid: Tid, pid: Pid) {
    && c <= c' && s.log <= s'.log && s.db <= s'.db
    && s'.authority == s.authority && s'.procs.Keys == s.procs.Keys
    && (forall p :: p in s.procs && p != pid ==> s'.procs[p] == s.procs[p])
    && (forall t :: t in s'.threads && t != tid ==> t in s.threads && s'.threads[t] == s.threads[t])
  }

  lemma LocalStepKeepsInv(s: State, c: Counter, s': State, c': Counter, tid: Tid, pid: Pid)
    requires Inv(s, c) && Local(s, c, s', c', tid, pid)
    requires CounterOk(c', s'.db) && forall p :: p in s'.procs ==> CounterOf(s', p) == c'
    requires CountedBy(s'.log, c', |c'|) && Fresh(s'.log)
    requires pid in s'.procs ==> ProcessOk(c', s'.procs[pid])
    requires tid in s'.threads ==> ThreadOk(s', c', s'.threads[tid])
    ensures Inv(s', c')
  {
    forall p | p in s'.procs ensures ProcessOk(c', s'.procs[p]) {
      if p != pid { ProcessStays(c, c', s.procs[p]); }
    }
    forall t | t in s'.threads ensures ThreadOk(s', c', s'.threads[t]) {
      if t != tid { ThreadStays(s, c, s', c', s.threads[t]); }
    }
  }

  // --------------------------------------------------------- every step keeps it

  lemma ServeKeepsFresh(s: State, c: Counter, tid: Tid, hit: bool, version: nat)
    requires Inv(s, c) && tid in s.threads
    requires if hit then Floor(c, |c|) <= version
             else exists g :: CountedBy(s.log[..s.threads[tid].begun], c, g) && Reaches(c, g, version)
    ensures Fresh(Serve(s, tid, hit, version).log) && CountedBy(Serve(s, tid, hit, version).log, c, |c|)
  {
    var b := s.threads[tid].begun;
    var log' := Serve(s, tid, hit, version).log;
    forall d | 0 <= d < |s.log| && s.log[d].Busted? && (hit || d < b) ensures s.log[d].since <= version {
      if !hit {
        var g :| CountedBy(s.log[..b], c, g) && Reaches(c, g, version);
        assert s.log[..b][d] == s.log[d];
      }
    }
  }

  lemma PrefixCounted(s: State, c: Counter, b: nat)
    requires CountedBy(s.log, c, |c|) && b <= |s.log|
    ensures CountedBy(s.log[..b], c, |c|)
  {
    forall d | 0 <= d < b && s.log[..b][d].Busted? ensures s.log[..b][d].since <= Floor(c, |c|) {
      assert s.log[..b][d] == s.log[d];
    }
  }

  /** A read that goes on stands where its own program point allows. */
  lemma ReadPcOk(s: State, c: Counter, tid: Tid)
    requires Inv(s, c) && tid in s.threads && !IsBust(s.threads[tid].pc) && !IsTrack(s.threads[tid].pc)
    ensures tid in AdvanceRead(s, tid).threads ==>
              PcOk(c, s.log, s.db, s.threads[tid].begun, AdvanceRead(s, tid).threads[tid].pc)
  {
    var t := s.threads[tid];
    assert ThreadOk(s, c, t) && ProcessOk(c, s.procs[t.pid]) && CounterOf(s, t.pid) == c;
    PrefixCounted(s, c, t.begun);
  }

  /** One that ends has served a payload no older than it may. */
  lemma ReadServesFresh(s: State, c: Counter, tid: Tid)
    requires Inv(s, c) && tid in s.threads && !IsBust(s.threads[tid].pc) && !IsTrack(s.threads[tid].pc)
    ensures Fresh(AdvanceRead(s, tid).log) && CountedBy(AdvanceRead(s, tid).log, c, |c|)
  {
    var t := s.threads[tid];
    assert ThreadOk(s, c, t) && CounterOf(s, t.pid) == c;
    match t.pc {
      case Check(v, layered, e) =>
        if e.gen == |c| { ServeKeepsFresh(s, c, tid, true, e.version); }
      case StoreCheck(v, g, version) =>
        if g != |c| { ServeKeepsFresh(s, c, tid, false, version); }
      case Insert(v, g, version) =>
        ServeKeepsFresh(s, c, tid, false, version);
      case _ =>
    }
  }

  /** It touches its own process's bytes and nothing else that is shared. */
  lemma ReadIsLocal(s: State, c: Counter, tid: Tid)
    requires Inv(s, c) && tid in s.threads && !IsBust(s.threads[tid].pc) && !IsTrack(s.threads[tid].pc)
    ensures var s', pid := AdvanceRead(s, tid), s.threads[tid].pid;
            && Local(s, c, s', c, tid, pid) && s'.db == s.db
            && (forall p :: p in s'.procs ==> CounterOf(s', p) == c)
            && pid in s'.procs && ProcessOk(c, s'.procs[pid])
            && (tid in s'.threads ==> s'.log == s.log && s'.threads[tid] == s.threads[tid].(pc := s'.threads[tid].pc)
                                      && !IsBust(s'.threads[tid].pc))
  {
    var t := s.threads[tid];
    assert ThreadOk(s, c, t) && ProcessOk(c, s.procs[t.pid]) && CounterOf(s, t.pid) == c;
  }

  lemma ReadKeepsInv(s: State, c: Counter, tid: Tid)
    requires Inv(s, c) && tid in s.threads && !IsBust(s.threads[tid].pc) && !IsTrack(s.threads[tid].pc)
    ensures Inv(AdvanceRead(s, tid), c)
  {
    ReadPcOk(s, c, tid);
    ReadServesFresh(s, c, tid);
    ReadIsLocal(s, c, tid);
    LocalStepKeepsInv(s, c, AdvanceRead(s, tid), c, tid, s.threads[tid].pid);
  }

  /** A tag of an earlier generation asks no more than one of the current generation. */
  lemma EarlierTagReached(c: Counter, db: nat, g: nat, version: nat)
    requires CounterOk(c, db) && g <= |c| && Reaches(c, |c|, version)
    ensures Reaches(c, g, version)
  {
  }

  lemma NowReaches(c: Counter, db: nat, g: nat)
    requires CounterOk(c, db) && g <= |c|
    ensures Reaches(c, g, db)
  {
  }

  /** The step after next of a layered read satisfies what its own program point demands. */
  lemma TrackPcOk(s: State, c: Counter, tid: Tid)
    requires Inv(s, c) && tid in s.threads && IsTrack(s.threads[tid].pc)
    ensures tid in AdvanceTrack(s, tid).threads
    ensures PcOk(c, s.log, s.db, s.threads[tid].begun, AdvanceTrack(s, tid).threads[tid].pc)
  {
    var t := s.threads[tid];
    assert ThreadOk(s, c, t) && ProcessOk(c, s.procs[t.pid]) && CounterOf(s, t.pid) == c;
    match t.pc {
      case TrackCheck(v, g, locked, e) =>
        if e.gen == |c| { EarlierTagReached(c, s.db, g, e.version); }
      case TrackLoad(v, g, tg) =>
        NowReaches(c, s.db, g);
        NowReaches(c, s.db, tg);
      case _ =>
    }
  }

  /** Whatever way the prepared trip was obtained, it reaches the floor of the generation the
      bytes will be tagged with. */
  lemma TrackKeepsInv(s: State, c: Counter, tid: Tid)
    requires Inv(s, c) && tid in s.threads && IsTrack(s.threads[tid].pc)
    ensures Inv(AdvanceTrack(s, tid), c)
  {
    var t := s.threads[tid];
    TrackPcOk(s, c, tid);
    TrackIsLocal(s, c, tid);
    LocalStepKeepsInv(s, c, AdvanceTrack(s, tid), c, tid, t.pid);
  }

  /** It touches its own process's trip and nothing else that is shared. */
  lemma TrackIsLocal(s: State, c: Counter, tid: Tid)
    requires Inv(s, c) && tid in s.threads && IsTrack(s.threads[tid].pc)
    ensures var s', pid := AdvanceTrack(s, tid), s.threads[tid].pid;
            && Local(s, c, s', c, tid, pid) && s'.log == s.log && s'.db == s.db
            && (forall p :: p in s'.procs ==> CounterOf(s', p) == c)
            && pid in s'.procs && ProcessOk(c, s'.procs[pid])
            && tid in s'.threads && s'.threads[tid].pid == pid && s'.threads[tid].begun == s.threads[tid].begun
            && !IsBust(s'.threads[tid].pc)
  {
    var t := s.threads[tid];
    assert ThreadOk(s, c, t) && ProcessOk(c, s.procs[t.pid]) && CounterOf(s, t.pid) == c;
  }

  lemma BumpOk(c: Counter, db: nat, log: seq<Event>)
    requires CounterOk(c, db) && CountedBy(log, c, |c|)
    ensures CounterOk(c + [db], db) && CountedBy(log, c + [db], |c| + 1) && Floor(c + [db], |c| + 1) == db
    ensures c <= c + [db]
  {
    LastFloorGrows(c, c + [db], db);
  }

  lemma BustKeepsInv(s: State, c: Counter, tid: Tid) returns (c': Counter)
    requires Inv(s, c) && tid in s.threads && IsBust(s.threads[tid].pc)
    ensures Inv(AdvanceBust(s, tid), c')
  {
    var t := s.threads[tid];
    var s' := AdvanceBust(s, tid);
    assert ThreadOk(s, c, t);
    c' := c;
    if t.pc.BumpShared? || (t.pc.DropBytes? && s.authority.LocalDict?) {
      BumpOk(c, s.db, s.log);
      c' := c + [s.db];
      ProcessStays(c, c', s.procs[t.pid]);
    }
    LocalStepKeepsInv(s, c, s', c', tid, t.pid);
  }

  lemma StepKeepsInv(s: State, c: Counter, a: Action) returns (c': Counter)
    requires Inv(s, c)
    ensures Inv(Step(s, a), c')
  {
    c' := c;
    match a
    case Begin(tid, pid, task) =>
      if tid !in s.threads && pid in s.procs { LocalStepKeepsInv(s, c, Step(s, a), c, tid, pid); }
    case Advance(tid) =>
      if tid in s.threads {
        assert ThreadOk(s, c, s.threads[tid]);
        if IsBust(s.threads[tid].pc) { c' := BustKeepsInv(s, c, tid); }
        else if IsTrack(s.threads[tid].pc) { TrackKeepsInv(s, c, tid); }
        else { ReadKeepsInv(s, c, tid); }
      }
    case Forget(pid, v) =>
      ForgetKeepsInv(s, c, pid, v);
    case ForgetTrack(pid) =>
      ForgetKeepsInv(s, c, pid, 0);
  }

  lemma ForgetKeepsInv(s: State, c: Counter, pid: Pid, v: Variant)
    requires Inv(s, c)
    ensures Inv(Step(s, Forget(pid, v)), c) && Inv(Step(s, ForgetTrack(pid)), c)
  {
    if pid in s.procs {
      forall t | t in s.threads ensures ThreadOk(Step(s, Forget(pid, v)), c, s.threads[t])
                                     && ThreadOk(Step(s, ForgetTrack(pid)), c, s.threads[t]) {
        ThreadStays(s, c, Step(s, Forget(pid, v)), c, s.threads[t]);
        ThreadStays(s, c, Step(s, ForgetTrack(pid)), c, s.threads[t]);
      }
    }
  }

  lemma {:induction false} RunKeepsInv(s: State, c: Counter, actions: seq<Action>) returns (c': Counter)
    requires Inv(s, c)
    ensures Inv(Run(s, actions), c')
    decreases |actions|
  {
    c' := c;
    if actions != [] {
      var next := StepKeepsInv(s, c, actions[0]);
      c' := RunKeepsInv(Step(s, actions[0]), next, actions[1..]);
    }
  }

  lemma EveryRunFresh(authority: Authority, pids: set<Pid>, actions: seq<Action>)
    requires OneCounter(authority, pids)
    ensures Fresh(Run(Init(authority, pids), actions).log)
  {
    var _ := RunKeepsInv(Init(authority, pids), [], actions);
  }

  /** Every payload in either cache, in every process, was read at least as late as the bump
      to the generation it is tagged with: tags never flatter. */
  lemma TagsNeverFlatter(authority: Authority, pids: set<Pid>, actions: seq<Action>, pid: Pid)
    requires OneCounter(authority, pids) && pid in Run(Init(authority, pids), actions).procs
    ensures var s := Run(Init(authority, pids), actions);
            ProcessOk(CounterOf(s, pid), s.procs[pid])
  {
    var _ := RunKeepsInv(Init(authority, pids), [], actions);
  }

  // ------------------------------------------- without a shared counter it fails

  /** Process `p` caches version 0; process `q` commits version 1 and busts; `p` serves a hit. */
  function StaleRun(p: Pid, q: Pid): seq<Action> {
    FillRun(p) + BustRun(q) + HitRun(p)
  }

  function FillRun(p: Pid): seq<Action> {
    [Begin(0, p, Read(0)), Advance(0), Advance(0)] + [Advance(0), Advance(0), Advance(0)]
  }

  function BustRun(q: Pid): seq<Action> {
    [Begin(1, q, Mutate), Advance(1), Advance(1)] + [Advance(1), Advance(1)]
  }

  function HitRun(p: Pid): seq<Action> {
    [Begin(2, p, Read(0)), Advance(2), Advance(2)]
  }

  lemma {:induction false} RunConcat(s: State, a: seq<Action>, b: seq<Action>)
    ensures Run(s, a + b) == Run(Run(s, a), b)
    decreases |a|
  {
    if a == [] {
      assert a + b == b;
    } else {
      assert (a + b)[1..] == a[1..] + b;
      RunConcat(Step(s, a[0]), a[1..], b);
    }
  }

  lemma RunOne(s: State, a: Action)
    ensures Run(s, [a]) == Step(s, a)
  {
    assert [a][1..] == [];
    assert Run(Step(s, a), []) == Step(s, a);
  }

  lemma RunThree(s: State, a: Action, b: Action, c: Action)
    ensures Run(s, [a, b, c]) == Step(Step(Step(s, a), b), c)
    ensures Run(s, [a, b]) == Step(Step(s, a), b)
  {
    assert [a, b, c][1..] == [b, c] && [b, c][1..] == [c] && [a, b][1..] == [b];
    assert Run(s, [a, b, c]) == Run(Step(s, a), [b, c]) == Run(Step(Step(s, a), b), [c]);
    assert Run(s, [a, b]) == Run(Step(s, a), [b]);
    RunOne(Step(Step(s, a), b), c);
    RunOne(Step(s, a), b);
  }

  ghost predicate Quiet(s: State, pids: set<Pid>) {
    s.authority == LocalDict && s.threads == map[] && s.procs.Keys == pids
  }

  /** A state in which the only request under way is `t`. */
  function Alone(s: State, tid: Tid, t: Thread): State {
    s.(threads := map[tid := t])
  }

  lemma AloneGoes(s: State, tid: Tid, t: Thread, pc: Pc)
    ensures Goto(Alone(s, tid, t), tid, pc) == Alone(s, tid, t.(pc := pc))
  {
  }

  lemma FillLoads(s: State, pids: set<Pid>, p: Pid)
    requires Quiet(s, pids) && p in pids && s.db == 0 && s.log == [] && s.procs[p] == Process(map[], None, [])
    ensures Run(s, [Begin(0, p, Read(0)), Advance(0), Advance(0)]) == Alone(s, 0, Thread(p, 0, Load(0, 0)))
  {
    RunThree(s, Begin(0, p, Read(0)), Advance(0), Advance(0));
    var s1 := Alone(s, 0, Thread(p, 0, Lookup(0, false)));
    assert Step(s, Begin(0, p, Read(0))) == s1;
    AloneGoes(s, 0, Thread(p, 0, Lookup(0, false)), ReadGen(0, false));
    var s2 := Alone(s, 0, Thread(p, 0, ReadGen(0, false)));
    assert Step(s1, Advance(0)) == s2;
    AloneGoes(s, 0, Thread(p, 0, ReadGen(0, false)), Load(0, 0));
  }

  lemma FillStores(s: State, pids: set<Pid>, p: Pid)
    requires Quiet(s, pids) && p in pids && s.db == 0 && s.log == [] && s.procs[p] == Process(map[], None, [])
    ensures Run(Alone(s, 0, Thread(p, 0, Load(0, 0))), [Advance(0), Advance(0), Advance(0)])
         == s.(procs := s.procs[p := Process(map[0 := Entry(0, 0)], None, [])], log := [Served(0, false, 0)])
  {
    var s3 := Alone(s, 0, Thread(p, 0, Load(0, 0)));
    RunThree(s3, Advance(0), Advance(0), Advance(0));
    AloneGoes(s, 0, Thread(p, 0, Load(0, 0)), StoreCheck(0, 0, 0));
    var s4 := Alone(s, 0, Thread(p, 0, StoreCheck(0, 0, 0)));
    assert Step(s3, Advance(0)) == s4;
    AloneGoes(s, 0, Thread(p, 0, StoreCheck(0, 0, 0)), Insert(0, 0, 0));
    var s5 := Alone(s, 0, Thread(p, 0, Insert(0, 0, 0)));
    assert Step(s4, Advance(0)) == s5;
  }

  lemma HitServes(s: State, pids: set<Pid>, p: Pid)
    requires Quiet(s, pids) && p in pids && s.procs[p] == Process(map[0 := Entry(0, 0)], None, [])
    ensures Run(s, HitRun(p)).log == s.log + [Served(|s.log|, true, 0)]
  {
    var t := Thread(p, |s.log|, Lookup(0, false));
    RunThree(s, Begin(2, p, Read(0)), Advance(2), Advance(2));
    var s1 := Alone(s, 2, t);
    assert Step(s, Begin(2, p, Read(0))) == s1;
    AloneGoes(s, 2, t, Check(0, false, Entry(0, 0)));
    var s2 := Alone(s, 2, t.(pc := Check(0, false, Entry(0, 0))));
    assert Step(s1, Advance(2)) == s2;
  }

  lemma BustElsewhere(s: State, pids: set<Pid>, q: Pid)
    requires Quiet(s, pids) && q in pids && s.db == 0 && |s.log| == 1
    ensures var s' := Run(s, BustRun(q));
            && Quiet(s', pids) && s'.log == s.log + [Busted(1)]
            && forall p :: p in pids && p != q ==> s'.procs[p] == s.procs[p]
  {
    RunConcat(s, [Begin(1, q, Mutate), Advance(1), Advance(1)], [Advance(1), Advance(1)]);
    RunThree(s, Begin(1, q, Mutate), Advance(1), Advance(1));
    var s1 := s.(threads := map[1 := Thread(q, 1, Commit)]);
    assert Step(s, Begin(1, q, Mutate)) == s1;
    var s2 := s.(db := 1, threads := map[1 := Thread(q, 1, CallBust)]);
    assert Step(s1, Advance(1)) == s2;
    var s3 := s.(db := 1, threads := map[1 := Thread(q, 1, DropBytes(1))]);
    assert Step(s2, Advance(1)) == s3;
    RunThree(s3, Advance(1), Advance(1), Advance(1));
    var s4 := Step(s3, Advance(1));
    assert s4.threads == map[1 := Thread(q, 1, DropTrack(1))];
  }

  lemma StaleWithTwoCounters(pids: set<Pid>, p: Pid, q: Pid)
    requires p in pids && q in pids && p != q
    ensures Run(Init(LocalDict, pids), StaleRun(p, q)).log == [Served(0, false, 0), Busted(1), Served(2, true, 0)]
    ensures !Fresh(Run(Init(LocalDict, pids), StaleRun(p, q)).log)
  {
    var s := Init(LocalDict, pids);
    FillLoads(s, pids, p);
    FillStores(s, pids, p);
    RunConcat(s, [Begin(0, p, Read(0)), Advance(0), Advance(0)], [Advance(0), Advance(0), Advance(0)]);
    var filled := Run(s, FillRun(p));
    BustElsewhere(filled, pids, q);
    var busted := Run(filled, BustRun(q));
    HitServes(busted, pids, p);
    RunConcat(s, FillRun(p), BustRun(q));
    RunConcat(s, FillRun(p) + BustRun(q), HitRun(p));
    var log := Run(s, StaleRun(p, q)).log;
    assert log == [Served(0, false, 0), Busted(1), Served(2, true, 0)];
    assert log[1].Busted? && log[2].Served?;
  }

  /** No interleaving ever serves stale data if and only if one counter rules all processes:
      either it is shared through Redis, or there is at most one process. */
  lemma FreshExactlyWithOneCounter(authority: Authority, pids: set<Pid>)
    ensures (forall actions :: Fresh(Run(Init(authority, pids), actions).log)) <==> OneCounter(authority, pids)
  {
    if OneCounter(authority, pids) {
      forall actions ensures Fresh(Run(Init(authority, pids), actions).log) {
        EveryRunFresh(authority, pids, actions);
      }
    } else {
      var p, q :| p in pids && q in pids && p != q;
      StaleWithTwoCounters(pids, p, q);
    }
  }
}
