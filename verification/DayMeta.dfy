/**
 `PATCH /day-meta` (`api/projects.py`): the three-stage merge of a patch into a trip's
 stored day metadata, and the compare-and-set loop that runs it concurrently.
 */
module DayMeta {
  import opened Wrappers

  datatype Json =
    | Null
    | Bool(b: bool)
    | Num(n: int)
    | Str(s: string)
    | List(elems: seq<Json>)
    | Obj(fields: map<string, Json>)

  type Day = string
  type Fields = map<string, Json>

  /** The parsed `day_meta_json`; an unreadable blob reads as the empty map. An entry that is
      not an object is unreadable too. */
  type Stored = map<Day, Json>

  datatype Patch = Patch(days: map<Day, Fields>, delete: set<Day>)

  /** Days both set and deleted are answered 400. */
  predicate WellFormed(p: Patch) {
    p.days.Keys !! p.delete
  }

  predicate Blank(v: Json) {
    v == Null || v == Str("") || v == List([]) || v == Obj(map[])
  }

  /** `_day_meta_has_content`. */
  predicate HasContent(entry: Json) {
    entry.Obj? && exists k :: k in entry.fields && !Blank(entry.fields[k])
  }

  predicate Truthy(v: Json) {
    match v
    case Null => false
    case Bool(b) => b
    case Num(n) => n != 0
    case Str(s) => s != ""
    case List(l) => l != []
    case Obj(m) => m != map[]
  }

  // -------------------------------------------------------------------- the merge

  /** The readable days that are not deleted, overlaid with the days the patch sets. */
  function Overlay(stored: Stored, p: Patch): map<Day, Fields> {
    (map d | d in stored && stored[d].Obj? && d !in p.delete :: stored[d].fields) + p.days
  }

  /** `_keep_days_the_caller_cannot_see`: put back the non-empty days dropped on a day that
      holds content hidden from the caller. */
  function KeepHidden(incoming: map<Day, Fields>, stored: Stored, hidden: set<Day>): map<Day, Fields> {
    incoming + map d | d in stored && d !in incoming && HasContent(stored[d]) && d in hidden :: stored[d].fields
  }

  predicate HasCounters(stored: Stored, d: Day) {
    d in stored && stored[d].Obj? && "counters" in stored[d].fields && Truthy(stored[d].fields["counters"])
  }

  function WithCounters(stored: Stored, d: Day, fields: Fields): Fields {
    if HasCounters(stored, d) && "counters" !in fields
    then fields["counters" := stored[d].fields["counters"]] else fields
  }

  function PreserveCounters(incoming: map<Day, Fields>, stored: Stored): map<Day, Fields> {
    map d | d in incoming :: WithCounters(stored, d, incoming[d])
  }

  /** `_merge_day_meta_preserve_counters`, as the loop over the stored days that it is. */
  method MergePreserveCounters(incoming: map<Day, Fields>, stored: Stored) returns (merged: map<Day, Fields>)
    ensures merged == PreserveCounters(incoming, stored)
  {
    merged := incoming;
    var left := stored.Keys;
    while left != {}
      invariant left <= stored.Keys && merged.Keys == incoming.Keys
      invariant forall d :: d in incoming ==>
        merged[d] == if d in left then incoming[d] else WithCounters(stored, d, incoming[d])
    {
      var d :| d in left;
      left := left - {d};
      if stored[d].Obj? && "counters" in stored[d].fields && Truthy(stored[d].fields["counters"]) {
        if d in merged && "counters" !in merged[d] {
          merged := merged[d := merged[d]["counters" := stored[d].fields["counters"]]];
        }
      }
    }
  }

  /** What the row holds after a successful patch. */
  function Patched(stored: Stored, p: Patch, hidden: set<Day>): Stored {
    var merged := PreserveCounters(KeepHidden(Overlay(stored, p), stored, hidden), stored);
    map d | d in merged :: Obj(merged[d])
  }

  // -------------------------------------------------------- what it means per day

  /** The meaning of a patch for one day, given what was stored for it. */
  function DayAfter(before: Option<Json>, change: Option<Fields>, deleted: bool, hidden: bool): Option<Json> {
    match change
    case Some(fields) =>
      if before.Some? && before.value.Obj? && "counters" !in fields && "counters" in before.value.fields
         && Truthy(before.value.fields["counters"])
      then Some(Obj(fields["counters" := before.value.fields["counters"]]))
      else Some(Obj(fields))
    case None =>
      if before.None? || !before.value.Obj? then None
      else if deleted && !(HasContent(before.value) && hidden) then None
      else before
  }

  /** The three stages together do to each day exactly what `DayAfter` says. */
  lemma PatchedPerDay(stored: Stored, p: Patch, hidden: set<Day>, d: Day)
    requires WellFormed(p)
    ensures Get(Patched(stored, p, hidden), d)
         == DayAfter(Get(stored, d), Get(p.days, d), d in p.delete, d in hidden)
  {
    var overlay := Overlay(stored, p);
    var kept := KeepHidden(overlay, stored, hidden);
    assert d in kept <==> d in Patched(stored, p, hidden);
    if d in p.days {
      assert kept[d] == p.days[d];
    } else if d in kept {
      assert d in stored && stored[d].Obj? && kept[d] == stored[d].fields;
      assert WithCounters(stored, d, kept[d]) == kept[d];
    }
  }

  /** A field that says something: anything but null and the empty string, list or object. */
  predicate Says(v: Json) {
    || v.Bool? || v.Num?
    || (v.Str? && |v.s| > 0) || (v.List? && |v.elems| > 0) || (v.Obj? && exists k :: k in v.fields)
  }

  ghost predicate SaysSomething(entry: Option<Json>) {
    entry.Some? && entry.value.Obj? && exists k :: k in entry.value.fields && Says(entry.value.fields[k])
  }

  lemma BlankIsSilent(v: Json)
    ensures Blank(v) <==> !Says(v)
  {
    if v.Obj? && v != Obj(map[]) {
      assert v.fields.Keys != {};
    }
  }

  lemma ContentSays(entry: Json)
    ensures HasContent(entry) <==> SaysSomething(Some(entry))
  {
    forall v: Json ensures Blank(v) <==> !Says(v) {
      BlankIsSilent(v);
    }
  }

  /** A day that a patch deletes, or does not mention, is kept as it is or gone. A deleted day is
      kept if and only if it says something and holds content hidden from the caller; one that is
      not mentioned, if and only if it is readable. */
  lemma UnsetDayKeptExactly(stored: Stored, p: Patch, hidden: set<Day>, d: Day)
    requires WellFormed(p) && d !in p.days
    ensures Get(Patched(stored, p, hidden), d) in {Get(stored, d), None}
    ensures d in p.delete ==> (d in Patched(stored, p, hidden) <==> SaysSomething(Get(stored, d)) && d in hidden)
    ensures d !in p.delete ==> (d in Patched(stored, p, hidden) <==> d in stored && stored[d].Obj?)
  {
    PatchedPerDay(stored, p, hidden, d);
    if d in stored { ContentSays(stored[d]); }
  }

  /** Counters worth keeping: true, a number other than 0, or a string, list or object that is
      not empty. */
  predicate Counts(v: Json) {
    || v == Bool(true) || (v.Num? && v.n != 0)
    || (v.Str? && |v.s| > 0) || (v.List? && |v.elems| > 0) || (v.Obj? && exists k :: k in v.fields)
  }

  lemma TruthyCounts(v: Json)
    ensures Truthy(v) <==> Counts(v)
  {
    if v.Obj? && v.fields != map[] {
      assert v.fields.Keys != {};
    }
  }

  /** A day that a patch sets holds the fields it was given and nothing else, except that it keeps
      its stored counters if and only if the patch does not name any and they are worth keeping. */
  lemma SetDayKeepsCountersExactly(stored: Stored, p: Patch, hidden: set<Day>, d: Day)
    requires WellFormed(p) && d in p.days
    ensures var r := Get(Patched(stored, p, hidden), d);
            && r.Some? && r.value.Obj?
            && (forall k :: k != "counters" ==> Get(r.value.fields, k) == Get(p.days[d], k))
            && Get(r.value.fields, "counters")
               == if "counters" in p.days[d] then Some(p.days[d]["counters"])
                  else if d in stored && stored[d].Obj? && "counters" in stored[d].fields
                          && Counts(stored[d].fields["counters"])
                  then Some(stored[d].fields["counters"]) else None
  {
    PatchedPerDay(stored, p, hidden, d);
    if d in stored && stored[d].Obj? && "counters" in stored[d].fields {
      TruthyCounts(stored[d].fields["counters"]);
    }
  }

  lemma SameDays(a: Stored, b: Stored)
    requires forall d :: Get(a, d) == Get(b, d)
    ensures a == b
  {
    forall d ensures d in a <==> d in b {
      assert Get(a, d) == Get(b, d);
    }
    forall d | d in a ensures a[d] == b[d] {
      assert Get(a, d) == Get(b, d);
    }
  }

  /** Applying the same patch twice is applying it once. */
  lemma PatchIdempotent(stored: Stored, p: Patch, hidden: set<Day>)
    requires WellFormed(p)
    ensures Patched(Patched(stored, p, hidden), p, hidden) == Patched(stored, p, hidden)
  {
    var once := Patched(stored, p, hidden);
    forall d ensures Get(Patched(once, p, hidden), d) == Get(once, d) {
      PatchedPerDay(stored, p, hidden, d);
      PatchedPerDay(once, p, hidden, d);
    }
    SameDays(Patched(once, p, hidden), once);
  }

  function Touched(p: Patch): set<Day> {
    p.days.Keys + p.delete
  }

  /** An unreadable entry goes on the first write, whatever the write is about. */
  function Cleaned(before: Option<Json>): Option<Json> {
    if before.Some? && before.value.Obj? then before else None
  }

  lemma UntouchedCleaned(stored: Stored, p: Patch, hidden: set<Day>, d: Day)
    requires WellFormed(p) && d !in Touched(p)
    ensures Get(Patched(stored, p, hidden), d) == Cleaned(Get(stored, d))
  {
    PatchedPerDay(stored, p, hidden, d);
  }

  /** What a patch makes of a day depends only on that day's readable entry. */
  lemma PatchReadsOneDay(a: Stored, b: Stored, p: Patch, hidden: set<Day>, d: Day)
    requires WellFormed(p) && Cleaned(Get(a, d)) == Cleaned(Get(b, d))
    ensures Get(Patched(a, p, hidden), d) == Get(Patched(b, p, hidden), d)
    ensures Cleaned(Get(Patched(a, p, hidden), d)) == Get(Patched(a, p, hidden), d)
  {
    PatchedPerDay(a, p, hidden, d);
    PatchedPerDay(b, p, hidden, d);
  }

  /** Patches of different days, in either order, leave a day as its own patch alone would. */
  lemma OwnPatchDecides(stored: Stored, p: Patch, hp: set<Day>, q: Patch, hq: set<Day>, d: Day)
    requires WellFormed(p) && WellFormed(q) && d !in Touched(q)
    ensures Get(Patched(Patched(stored, p, hp), q, hq), d) == Get(Patched(stored, p, hp), d)
    ensures Get(Patched(Patched(stored, q, hq), p, hp), d) == Get(Patched(stored, p, hp), d)
  {
    var sp, sq := Patched(stored, p, hp), Patched(stored, q, hq);
    UntouchedCleaned(stored, q, hq, d);
    UntouchedCleaned(sp, q, hq, d);
    PatchReadsOneDay(stored, sq, p, hp, d);
  }

  /** Patches of different days commute, whoever their callers are, and both land. */
  lemma DisjointPatchesCommute(stored: Stored, p: Patch, hp: set<Day>, q: Patch, hq: set<Day>)
    requires WellFormed(p) && WellFormed(q) && Touched(p) !! Touched(q)
    ensures Patched(Patched(stored, p, hp), q, hq) == Patched(Patched(stored, q, hq), p, hp)
    ensures forall d :: d in Touched(p) ==>
              Get(Patched(Patched(stored, p, hp), q, hq), d) == Get(Patched(stored, p, hp), d)
    ensures forall d :: d in Touched(q) ==>
              Get(Patched(Patched(stored, p, hp), q, hq), d) == Get(Patched(stored, q, hq), d)
  {
    var sp, sq := Patched(stored, p, hp), Patched(stored, q, hq);
    var pq, qp := Patched(sp, q, hq), Patched(sq, p, hp);
    forall d ensures Get(pq, d) == Get(qp, d)
                  && (d in Touched(p) ==> Get(pq, d) == Get(sp, d)) && (d in Touched(q) ==> Get(pq, d) == Get(sq, d)) {
      if d in Touched(q) {
        OwnPatchDecides(stored, q, hq, p, hp, d);
      } else {
        OwnPatchDecides(stored, p, hp, q, hq, d);
      }
    }
    SameDays(pq, qp);
  }

  // ------------------------------------------------------- the compare-and-set loop

  const ATTEMPTS: nat := 5

  /** A request: what it asks for, how many attempts it has lost, and where it is.
      `Holding` is a merge computed from the row as read at version `expected`. */
  datatype Pc =
    | Reading
    | Holding(expected: nat, hidden: set<Day>, merged: Stored)
    | Landed(version: nat)
    | GaveUp
    | Refused

  /** `since` records how many writes had been committed when the request began. */
  datatype Client = Client(patch: Patch, since: nat, lost: nat, pc: Pc)

  /** A committed write: a patch, with the hidden days its caller was judged by, or any other
      write of the trip, which advances the lock version and may leave any day metadata. */
  datatype Write = PatchWrite(id: int, patch: Patch, hidden: set<Day>) | OtherWrite(meta: Stored)

  datatype World = World(version: nat, meta: Stored, clients: map<int, Client>, log: seq<Write>)

  datatype Action =
    | Begin(id: int, patch: Patch)
    | Read(id: int, hidden: set<Day>)
    | Refuse(id: int)
    | Cas(id: int)
    | Elsewhere(meta: Stored)

  function Init(meta: Stored): World {
    World(0, meta, map[], [])
  }

  function SetClient(w: World, id: int, c: Client): World {
    w.(clients := w.clients[id := c])
  }

  /** The end of an attempt: write and advance the version if no other write landed since the
      read, else read again, at most `ATTEMPTS` times. */
  function Attempt(w: World, id: int): World
    requires id in w.clients && w.clients[id].pc.Holding?
  {
    var c := w.clients[id];
    if c.pc.expected == w.version then
      World(w.version + 1, c.pc.merged, w.clients[id := c.(pc := Landed(w.version))],
            w.log + [PatchWrite(id, c.patch, c.pc.hidden)])
    else SetClient(w, id, Client(c.patch, c.since, c.lost + 1, if c.lost + 1 == ATTEMPTS then GaveUp else Reading))
  }

  function Step(w: World, a: Action): World {
    match a
    case Begin(id, p) =>
      if id in w.clients then w
      else SetClient(w, id, Client(p, w.version, 0, if WellFormed(p) then Reading else Refused))
    case Read(id, hidden) =>
      if id !in w.clients || !w.clients[id].pc.Reading? then w
      else SetClient(w, id, w.clients[id].(
        pc := Holding(w.version, hidden, Patched(w.meta, w.clients[id].patch, hidden))))
    case Refuse(id) =>
      if id !in w.clients || !w.clients[id].pc.Reading? then w
      else SetClient(w, id, w.clients[id].(pc := Refused))
    case Cas(id) =>
      if id !in w.clients || !w.clients[id].pc.Holding? then w else Attempt(w, id)
    case Elsewhere(meta) =>
      w.(version := w.version + 1, meta := meta, log := w.log + [OtherWrite(meta)])
  }

  function Run(w: World, actions: seq<Action>): World
    decreases |actions|
  {
    if actions == [] then w else Run(Step(w, actions[0]), actions[1..])
  }

  /** The committed writes one after the other, from the map the trip started with. */
  function Replay(meta: Stored, log: seq<Write>): Stored {
    if log == [] then meta
    else
      Written(Replay(meta, log[..|log| - 1]), log[|log| - 1])
  }

  function Written(before: Stored, x: Write): Stored {
    if x.PatchWrite? then Patched(before, x.patch, x.hidden) else x.meta
  }

  /** The stored map is the committed writes in lock-version order. */
  ghost predicate InOrder(meta0: Stored, w: World) {
    w.version == |w.log| && w.meta == Replay(meta0, w.log)
  }

  /** The patches among the writes are exactly those of the requests that landed, each once, at
      the version it reports. */
  ghost predicate Attributed(log: seq<Write>, clients: map<int, Client>) {
    && (forall k :: 0 <= k < |log| && log[k].PatchWrite? ==>
          var id := log[k].id;
          id in clients && clients[id].pc == Landed(k) && clients[id].patch == log[k].patch && WellFormed(log[k].patch))
    && (forall id :: id in clients && clients[id].pc.Landed? ==>
          var k := clients[id].pc.version;
          k < |log| && log[k].PatchWrite? && log[k].id == id)
  }

  ghost predicate Serial(meta0: Stored, w: World) {
    InOrder(meta0, w) && Attributed(w.log, w.clients)
  }

  ghost predicate ClientOk(meta0: Stored, w: World, c: Client) {
    && c.lost <= ATTEMPTS && (c.pc.GaveUp? <==> c.lost == ATTEMPTS)
    && (!c.pc.Refused? ==> WellFormed(c.patch))
    && c.since + c.lost <= (if c.pc.Holding? then c.pc.expected else |w.log|)
    && (c.pc.Holding? ==>
          && c.pc.expected <= |w.log|
          && c.pc.merged == Patched(Replay(meta0, w.log[..c.pc.expected]), c.patch, c.pc.hidden))
  }

  ghost predicate Inv(meta0: Stored, w: World) {
    Serial(meta0, w) && ClientsOk(meta0, w)
  }

  lemma ClientStays(meta0: Stored, w: World, w': World, c: Client)
    requires ClientOk(meta0, w, c) && w.log <= w'.log
    ensures ClientOk(meta0, w', c)
  {
    if c.pc.Holding? {
      assert w'.log[..c.pc.expected] == w.log[..c.pc.expected];
    }
  }

  ghost predicate ClientsOk(meta0: Stored, w: World) {
    forall id :: id in w.clients ==> ClientOk(meta0, w, w.clients[id])
  }

  lemma ClientsStay(meta0: Stored, w: World, w': World, id: int)
    requires ClientsOk(meta0, w) && w.log <= w'.log
    requires forall i :: i in w'.clients && i != id ==> i in w.clients && w'.clients[i] == w.clients[i]
    requires id in w'.clients ==> ClientOk(meta0, w', w'.clients[id])
    ensures ClientsOk(meta0, w')
  {
    forall i | i in w'.clients ensures ClientOk(meta0, w', w'.clients[i]) {
      if i != id { ClientStays(meta0, w, w', w.clients[i]); }
    }
  }

  lemma NotYetLanded(log: seq<Write>, clients: map<int, Client>, id: int)
    requires Attributed(log, clients) && (id in clients ==> !clients[id].pc.Landed?)
    ensures forall k :: 0 <= k < |log| && log[k].PatchWrite? ==> log[k].id != id
  {
  }

  /** A request moves on without writing. */
  lemma SetClientKeepsInv(meta0: Stored, w: World, id: int, c: Client)
    requires Inv(meta0, w) && ClientOk(meta0, w, c) && !c.pc.Landed?
    requires id in w.clients ==> !w.clients[id].pc.Landed?
    ensures Inv(meta0, SetClient(w, id, c))
  {
    NotYetLanded(w.log, w.clients, id);
    ClientsStay(meta0, w, SetClient(w, id, c), id);
  }

  /** A write lands on top of the committed ones. */
  lemma ReplayOneMore(meta0: Stored, log: seq<Write>, x: Write)
    ensures Replay(meta0, log + [x]) == Written(Replay(meta0, log), x)
  {
    assert (log + [x])[..|log + [x]| - 1] == log;
  }

  lemma AttributeOneMore(log: seq<Write>, clients: map<int, Client>, id: int, hidden: set<Day>)
    requires Attributed(log, clients) && id in clients && !clients[id].pc.Landed? && WellFormed(clients[id].patch)
    ensures Attributed(log + [PatchWrite(id, clients[id].patch, hidden)],
                       clients[id := clients[id].(pc := Landed(|log|))])
  {
    NotYetLanded(log, clients, id);
  }

  lemma LandKeepsInv(meta0: Stored, w: World, id: int)
    requires Inv(meta0, w) && id in w.clients && w.clients[id].pc.Holding? && w.clients[id].pc.expected == w.version
    ensures Inv(meta0, Attempt(w, id))
  {
    var c := w.clients[id];
    assert ClientOk(meta0, w, c);
    assert w.log[..|w.log|] == w.log;
    ReplayOneMore(meta0, w.log, PatchWrite(id, c.patch, c.pc.hidden));
    AttributeOneMore(w.log, w.clients, id, c.pc.hidden);
    ClientsStay(meta0, w, Attempt(w, id), id);
  }

  lemma ElsewhereKeepsInv(meta0: Stored, w: World, meta: Stored)
    requires Inv(meta0, w)
    ensures Inv(meta0, Step(w, Elsewhere(meta)))
  {
    var w' := Step(w, Elsewhere(meta));
    ReplayOneMore(meta0, w.log, OtherWrite(meta));
    AttributeOther(w.log, w.clients, meta);
    forall i | i in w'.clients ensures ClientOk(meta0, w', w'.clients[i]) {
      ClientStays(meta0, w, w', w.clients[i]);
    }
  }

  lemma AttributeOther(log: seq<Write>, clients: map<int, Client>, meta: Stored)
    requires Attributed(log, clients)
    ensures Attributed(log + [OtherWrite(meta)], clients)
  {
  }

  lemma StepKeepsInv(meta0: Stored, w: World, a: Action)
    requires Inv(meta0, w)
    ensures Inv(meta0, Step(w, a))
  {
    if a.Elsewhere? {
      ElsewhereKeepsInv(meta0, w, a.meta);
    } else if Step(w, a) != w {
      if a.id in w.clients { assert ClientOk(meta0, w, w.clients[a.id]); }
      if a.Cas? && w.clients[a.id].pc.expected == w.version {
        LandKeepsInv(meta0, w, a.id);
      } else {
        assert w.log[..|w.log|] == w.log;
        SetClientKeepsInv(meta0, w, a.id, Step(w, a).clients[a.id]);
      }
    }
  }

  lemma {:induction false} RunKeepsInv(meta0: Stored, w: World, actions: seq<Action>)
    requires Inv(meta0, w)
    ensures Inv(meta0, Run(w, actions))
    decreases |actions|
  {
    if actions != [] {
      StepKeepsInv(meta0, w, actions[0]);
      RunKeepsInv(meta0, Step(w, actions[0]), actions[1..]);
    }
  }

  /** Every interleaving of patches and other writes is serial; one that gave up or was refused
      left no write; and a request gives up only after losing `ATTEMPTS` times, when at least that
      many writes of others were committed since it began. */
  lemma PatchesSerialisable(meta0: Stored, actions: seq<Action>)
    ensures var w := Run(Init(meta0), actions);
            && Serial(meta0, w)
            && (forall id :: id in w.clients ==> w.clients[id].since <= |w.log|)
            && forall id :: id in w.clients && (w.clients[id].pc.GaveUp? || w.clients[id].pc.Refused?) ==>
                 && (forall k :: 0 <= k < |w.log| && w.log[k].PatchWrite? ==> w.log[k].id != id)
                 && (w.clients[id].pc.GaveUp? ==>
                       w.clients[id].lost == ATTEMPTS && ATTEMPTS <= |w.log[w.clients[id].since..]|)
  {
    RunKeepsInv(meta0, Init(meta0), actions);
  }

  /** The write at `m` leaves day `d` alone: a patch of other days, or another write of the trip
      that keeps what it found there. */
  ghost predicate LeavesAlone(meta0: Stored, log: seq<Write>, m: nat, d: Day)
    requires m < |log|
  {
    if log[m].PatchWrite? then WellFormed(log[m].patch) && d !in Touched(log[m].patch)
    else Get(log[m].meta, d) == Get(Replay(meta0, log[..m]), d)
  }

  lemma OtherWritesAlone(meta0: Stored, log: seq<Write>, n: nat, d: Day)
    requires n < |log| && forall m :: 0 <= m < |log| && m != n ==> LeavesAlone(meta0, log, m, d)
    ensures forall m :: 0 <= m < n ==> LeavesAlone(meta0, log[..n], m, d)
  {
    forall m | 0 <= m < n ensures LeavesAlone(meta0, log[..n], m, d) {
      assert LeavesAlone(meta0, log, m, d) && log[..n][..m] == log[..m];
    }
  }

  /** A day every write left alone keeps its readable entry. */
  lemma {:induction false} UntouchedDay(meta0: Stored, log: seq<Write>, d: Day)
    requires forall m :: 0 <= m < |log| ==> LeavesAlone(meta0, log, m, d)
    ensures Cleaned(Get(Replay(meta0, log), d)) == Cleaned(Get(meta0, d))
  {
    if log != [] {
      var n := |log| - 1;
      assert log == log[..n] + [log[n]];
      ReplayOneMore(meta0, log[..n], log[n]);
      OtherWritesAlone(meta0, log, n, d);
      UntouchedDay(meta0, log[..n], d);
      assert LeavesAlone(meta0, log, n, d);
      if log[n].PatchWrite? { UntouchedCleaned(Replay(meta0, log[..n]), log[n].patch, log[n].hidden, d); }
    }
  }

  /** The one patch that touches a day decides it, whatever is committed before and after. */
  lemma {:induction false} OnlyPatchDecides(meta0: Stored, log: seq<Write>, k: nat, d: Day)
    requires k < |log| && log[k].PatchWrite? && WellFormed(log[k].patch)
    requires forall m :: 0 <= m < |log| && m != k ==> LeavesAlone(meta0, log, m, d)
    ensures Get(Replay(meta0, log), d) == Get(Patched(meta0, log[k].patch, log[k].hidden), d)
  {
    var n := |log| - 1;
    var front, x := log[..n], log[n];
    assert log == front + [x];
    ReplayOneMore(meta0, front, x);
    var before := Replay(meta0, front);
    if k < n {
      forall m | 0 <= m < n && m != k ensures LeavesAlone(meta0, front, m, d) {
        assert LeavesAlone(meta0, log, m, d) && front[..m] == log[..m];
      }
      OnlyPatchDecides(meta0, front, k, d);
      PatchReadsOneDay(meta0, meta0, log[k].patch, log[k].hidden, d);
      assert LeavesAlone(meta0, log, n, d);
      if x.PatchWrite? { UntouchedCleaned(before, x.patch, x.hidden, d); }
    } else {
      OtherWritesAlone(meta0, log, n, d);
      UntouchedDay(meta0, front, d);
      PatchReadsOneDay(meta0, before, x.patch, x.hidden, d);
    }
  }

  /** Devices that edit different days all land: in every run, a day that no other write of the
      run changed ends as the patch of the request that landed there would alone have left it. */
  lemma EveryDisjointPatchLands(meta0: Stored, actions: seq<Action>, id: int, d: Day)
    requires var w := Run(Init(meta0), actions);
             id in w.clients && w.clients[id].pc.Landed?
             && forall m :: 0 <= m < |w.log| && m != w.clients[id].pc.version ==> LeavesAlone(meta0, w.log, m, d)
    ensures var w := Run(Init(meta0), actions);
            var k := w.clients[id].pc.version;
            && k < |w.log| && w.log[k].PatchWrite? && w.log[k].id == id && w.log[k].patch == w.clients[id].patch
            && Get(w.meta, d) == Get(Patched(meta0, w.clients[id].patch, w.log[k].hidden), d)
  {
    RunKeepsInv(meta0, Init(meta0), actions);
    var w := Run(Init(meta0), actions);
    OnlyPatchDecides(meta0, w.log, w.clients[id].pc.version, d);
  }

  // ------------------------------------------------------------------- patches do land

  lemma {:induction false} StillHolding(w: World, mid: seq<Action>, id: int)
    requires id in w.clients && w.clients[id].pc.Holding? && Cas(id) !in mid
    ensures id in Run(w, mid).clients && Run(w, mid).clients[id] == w.clients[id] && Run(w, mid).version >= w.version
    decreases |mid|
  {
    if mid != [] { StillHolding(Step(w, mid[0]), mid[1..], id); }
  }

  /** An attempt lands if and only if no write was committed between its read and its end; then
      the stored map is the patch of what was read. Otherwise the request reads again, unless it
      was its last attempt. */
  lemma AttemptLandsExactly(w: World, id: int, hidden: set<Day>, mid: seq<Action>)
    requires id in w.clients && w.clients[id].pc.Reading? && w.clients[id].lost < ATTEMPTS && Cas(id) !in mid
    ensures var before := Run(Step(w, Read(id, hidden)), mid);
            var after := Step(before, Cas(id));
            && id in after.clients
            && (after.clients[id].pc.Landed? <==> before.version == w.version)
            && (before.version == w.version ==>
                  && after.meta == Patched(w.meta, w.clients[id].patch, hidden) && after.version == w.version + 1
                  && after.log == before.log + [PatchWrite(id, w.clients[id].patch, hidden)])
            && (before.version != w.version ==>
                  && after.meta == before.meta && after.log == before.log
                  && (after.clients[id].pc.GaveUp? <==> w.clients[id].lost == 4)
                  && (after.clients[id].pc.Reading? <==> w.clients[id].lost < 4))
  {
    StillHolding(Step(w, Read(id, hidden)), mid, id);
  }

  /** A request is taken up if and only if it does not set and delete the same day. */
  lemma BegunExactlyIfWellFormed(w: World, id: int, p: Patch)
    requires id !in w.clients
    ensures var w' := Step(w, Begin(id, p));
            && id in w'.clients && w'.clients[id].patch == p && w'.meta == w.meta && w'.log == w.log
            && (w'.clients[id].pc.Reading? <==> forall d :: d in p.days ==> d !in p.delete)
            && (w'.clients[id].pc.Refused? <==> exists d :: d in p.days && d in p.delete)
  {
  }

  /** What is decided stays decided. */
  lemma {:induction false} DecidedForGood(w: World, rest: seq<Action>, id: int)
    requires id in w.clients && !w.clients[id].pc.Reading? && !w.clients[id].pc.Holding?
    ensures id in Run(w, rest).clients && Run(w, rest).clients[id] == w.clients[id]
    decreases |rest|
  {
    if rest != [] { DecidedForGood(Step(w, rest[0]), rest[1..], id); }
  }
}
