/**
 The photo protocol of one memory (`api/memories.py`): uploads, queued downloads,
 replacements, deletes, re-import clears and the deletion of the memory, interleaved in
 any way. Each save of a photo's files and each section under the photo lock is one step.
 */
module PhotoRuns {
  import opened Wrappers
  import opened MapSum
  import opened PhotoOrder

  /** A queued download: its rank, the epoch read when it was queued, how many clears had
      happened by then, and the content hash once the bytes are fetched and pre-checked. */
  datatype Download = Download(rank: Option<int>, epoch: int, clearsSeen: nat, contentHash: Option<string>)

  /** A photo whose files are written but which is not placed yet. */
  datatype Flight =
    | ToPlace(rank: Option<int>, epoch: Option<int>, contentHash: Option<string>)
    | ToReplace(oldId: Uuid)

  /** `memory` is None once the memory is deleted. `files` maps a photo to the bytes its
      files occupy, `usage` is the owner's storage counter and `elsewhere` what the owner
      stores outside this memory. `issued` are the ids generated so far, `clears` counts
      the re-import clears, and `origin` records for a downloaded photo how many clears
      had happened when its download was queued. */
  datatype World = World(
    memory: Option<Listing>, files: map<Uuid, nat>, usage: int, elsewhere: nat,
    queued: map<nat, Download>, flights: map<Uuid, Flight>, issued: set<Uuid>,
    clears: nat, origin: map<Uuid, nat>)

  datatype Action =
    | Queue(job: nat, rank: Option<int>)
    | Fetch(job: nat, contentHash: string)
    | GiveUp(job: nat)
    | SaveDownload(job: nat, uuid: Uuid, size: nat)
    | SaveUpload(uuid: Uuid, size: nat)
    | SaveReplacement(oldId: Uuid, uuid: Uuid, size: nat)
    | Land(uuid: Uuid)
    | DeletePhoto(uuid: Uuid)
    | Clear
    | DeleteMemory

  function Init(elsewhere: nat): World {
    World(Some(Listing([], Order(0, map[], map[]))), map[], elsewhere, elsewhere,
          map[], map[], {}, 0, map[])
  }

  // ------------------------------------------------------------------- the steps

  function Save(w: World, u: Uuid, size: nat, f: Flight): World {
    w.(files := w.files[u := size], usage := w.usage + size,
       flights := w.flights[u := f], issued := w.issued + {u})
  }

  /** Unlink the files that exist and subtract what they occupied; the counter is clamped at 0. */
  ghost function Unlink(w: World, us: set<Uuid>): World {
    var left := w.usage - Sum(Only(w.files, us));
    w.(files := w.files - us, usage := if left < 0 then 0 else left)
  }

  /** The lock section that places a photo or, when it has nowhere to go, drops its files. */
  ghost function LandPlace(w: World, u: Uuid, f: Flight): World
    requires f.ToPlace?
  {
    var done := w.(flights := w.flights - {u});
    if w.memory.None?
       || (f.epoch.Some? && w.memory.value.order.epoch != f.epoch.value)
       || (f.contentHash.Some? && HasHash(w.memory.value, f.contentHash.value))
    then Unlink(done, {u})
    else match Placed(w.memory.value, Arrival(u, f.rank, f.contentHash))
      case Some(l) => done.(memory := Some(l))
      case None => done
  }

  /** The lock section of a replacement; the replaced photo's files go under the same lock. */
  ghost function LandReplace(w: World, u: Uuid, f: Flight): World
    requires f.ToReplace?
  {
    var done := w.(flights := w.flights - {u});
    if w.memory.None? then Unlink(done, {u})
    else match Replaced(w.memory.value, f.oldId, u)
      case Some(l) => Unlink(done.(memory := Some(l)), {f.oldId})
      case None => Unlink(done, {u})
  }

  ghost function DropPhoto(w: World, u: Uuid): World {
    if w.memory.None? || u !in w.memory.value.photos then w
    else Unlink(w, {u}).(memory := Some(Removed(w.memory.value, u)))
  }

  ghost function ClearPhotos(w: World): World {
    if w.memory.None? then w
    else
      var l := w.memory.value;
      Unlink(w, set u | u in l.photos).(memory := Some(Listing([], Cleared(l.order))), clears := w.clears + 1)
  }

  /** One action; an action whose guard does not hold changes nothing. */
  ghost function Step(w: World, a: Action): World {
    match a
    case Queue(job, rank) =>
      if w.memory.Some? && job !in w.queued
      then w.(queued := w.queued[job := Download(rank, w.memory.value.order.epoch, w.clears, None)])
      else w
    case Fetch(job, h) =>
      if job !in w.queued || !IsHash(h) then w
      else if w.memory.Some? && HasHash(w.memory.value, h) then w.(queued := w.queued - {job})
      else w.(queued := w.queued[job := w.queued[job].(contentHash := Some(h))])
    case GiveUp(job) => w.(queued := w.queued - {job})
    case SaveDownload(job, u, size) =>
      if job !in w.queued || w.queued[job].contentHash.None? || u in w.issued then w
      else
        var d := w.queued[job];
        Save(w, u, size, ToPlace(d.rank, Some(d.epoch), d.contentHash))
          .(queued := w.queued - {job}, origin := w.origin[u := d.clearsSeen])
    case SaveUpload(u, size) => if u in w.issued then w else Save(w, u, size, ToPlace(None, None, None))
    case SaveReplacement(o, u, size) => if u in w.issued then w else Save(w, u, size, ToReplace(o))
    case Land(u) =>
      if u !in w.flights then w
      else if w.flights[u].ToPlace? then LandPlace(w, u, w.flights[u])
      else LandReplace(w, u, w.flights[u])
    case DeletePhoto(u) => DropPhoto(w, u)
    case Clear => ClearPhotos(w)
    case DeleteMemory => if w.memory.None? then w else Unlink(w, w.files.Keys).(memory := None)
  }

  ghost function Run(w: World, actions: seq<Action>): World
    decreases |actions|
  {
    if actions == [] then w else Run(Step(w, actions[0]), actions[1..])
  }

  // ---------------------------------------------------------------- what is promised

  /** The counter equals the bytes on disk. */
  ghost predicate Counted(w: World) {
    w.usage == w.elsewhere + Sum(w.files)
  }

  ghost predicate Listed(w: World, u: Uuid) {
    w.memory.Some? && u in w.memory.value.photos
  }

  /** Listed photos have their files; files belong to a listed photo or one in flight. */
  ghost predicate FilesMatch(w: World) {
    && (forall u :: Listed(w, u) ==> u in w.files)
    && (forall u :: u in w.files ==> Listed(w, u) || u in w.flights)
  }

  /** No listed photo comes from a download queued before the latest clear. */
  ghost predicate NoneStale(w: World) {
    forall u :: Listed(w, u) && u in w.origin ==> w.origin[u] == w.clears
  }

  /** No content hash is carried by two listed photos. */
  ghost predicate HashesDistinct(l: Listing) {
    forall u, v :: u in l.photos && v in l.photos && u != v && u in l.order.hashes && v in l.order.hashes ==>
      l.order.hashes[u] != l.order.hashes[v]
  }

  ghost predicate Promised(w: World) {
    && Counted(w) && FilesMatch(w) && NoneStale(w)
    && (w.memory.Some? ==> Orderly(w.memory.value) && HashesDistinct(w.memory.value))
  }

  // ------------------------------------------------------------------ the invariant

  /** A flight's id was issued, is not listed, has its files while the memory lives, and
      a download's flight carries the clears its photo was queued under as its epoch. */
  ghost predicate FlightOk(w: World, u: Uuid) {
    u in w.flights ==>
      && u in w.issued && !Listed(w, u) && (w.memory.Some? ==> u in w.files)
      && (match w.flights[u]
          case ToPlace(_, epoch, h) =>
            && (h.Some? ==> IsHash(h.value))
            && (if u in w.origin then epoch == Some(w.origin[u]) else epoch.None?)
          case ToReplace(_) => u !in w.origin)
  }

  ghost predicate QueuedOk(w: World) {
    forall job :: job in w.queued ==>
      && w.queued[job].epoch == w.queued[job].clearsSeen
      && (w.queued[job].contentHash.Some? ==> IsHash(w.queued[job].contentHash.value))
  }

  ghost predicate ListingOk(w: World) {
    w.memory.Some? ==>
      && Orderly(w.memory.value) && HashesDistinct(w.memory.value)
      && w.memory.value.order.epoch == w.clears
      && (forall u :: u in w.memory.value.photos ==> u in w.issued)
      && (forall u :: u in w.memory.value.order.hashes ==> IsHash(w.memory.value.order.hashes[u]))
  }

  ghost predicate Inv(w: World) {
    && Counted(w) && FilesMatch(w) && NoneStale(w) && ListingOk(w) && QueuedOk(w)
    && (forall u :: FlightOk(w, u))
    && (forall u :: u in w.origin ==> u in w.issued)
  }

  lemma UnlinkKeepsCount(w: World, us: set<Uuid>)
    requires Counted(w)
    ensures Counted(Unlink(w, us))
  {
    SumSplit(w.files, us);
  }

  // --------------------------------------------------------- every step keeps it

  lemma SaveKeepsInv(w: World, u: Uuid, size: nat, f: Flight)
    requires Inv(w) && u !in w.issued
    requires f.ToPlace? ==> f.epoch.None? && f.contentHash.None?
    ensures Inv(Save(w, u, size, f))
  {
    assert FlightOk(w, u);
    SumAdd(w.files, u, size);
    var w' := Save(w, u, size, f);
    forall v ensures FlightOk(w', v) { assert FlightOk(w, v); }
  }

  lemma SaveDownloadKeepsInv(w: World, job: nat, u: Uuid, size: nat)
    requires Inv(w)
    ensures Inv(Step(w, SaveDownload(job, u, size)))
  {
    var w' := Step(w, SaveDownload(job, u, size));
    if w' != w {
      assert FlightOk(w, u);
      SumAdd(w.files, u, size);
      forall v ensures FlightOk(w', v) { assert FlightOk(w, v); }
    }
  }

  /** A flight that ends without being placed takes its files with it. */
  lemma AbandonKeepsInv(w: World, u: Uuid)
    requires Inv(w) && u in w.flights
    ensures Inv(Unlink(w.(flights := w.flights - {u}), {u}))
  {
    var done := w.(flights := w.flights - {u});
    var w' := Unlink(done, {u});
    assert FlightOk(w, u);
    UnlinkKeepsCount(done, {u});
    forall v ensures FlightOk(w', v) { assert FlightOk(w, v); }
  }

  lemma PlacedListingOk(l: Listing, a: Arrival)
    requires Orderly(l) && HashesDistinct(l) && a.uuid !in l.photos
    requires a.contentHash.Some? ==> IsHash(a.contentHash.value) && !HasHash(l, a.contentHash.value)
    ensures HashesDistinct(Placed(l, a).value) && Orderly(Placed(l, a).value)
  {
    var r := Placed(l, a).value;
    PlacedKeepsOrderly(l, a);
    assert forall u :: u in r.photos <==> u == a.uuid || u in l.photos;
    forall u | u in l.photos && a.contentHash.Some? && u in l.order.hashes
      ensures l.order.hashes[u] != a.contentHash.value
    {
      var i :| 0 <= i < |l.photos| && l.photos[i] == u;
      assert Get(l.order.hashes, l.photos[i]) == Some(l.order.hashes[u]);
    }
  }

  lemma LandPlaceKeepsInv(w: World, u: Uuid)
    requires Inv(w) && u in w.flights && w.flights[u].ToPlace?
    ensures Inv(LandPlace(w, u, w.flights[u]))
  {
    var f := w.flights[u];
    var w' := LandPlace(w, u, f);
    assert FlightOk(w, u);
    if w.memory.None? || (f.epoch.Some? && w.memory.value.order.epoch != f.epoch.value)
       || (f.contentHash.Some? && HasHash(w.memory.value, f.contentHash.value)) {
      AbandonKeepsInv(w, u);
    } else {
      var l := w.memory.value;
      var a := Arrival(u, f.rank, f.contentHash);
      PlacedListingOk(l, a);
      assert forall v :: v in Placed(l, a).value.photos <==> v == u || v in l.photos;
      forall v ensures FlightOk(w', v) { assert FlightOk(w, v); }
    }
  }

  lemma ReplacedListingOk(l: Listing, o: Uuid, u: Uuid)
    requires Orderly(l) && HashesDistinct(l) && o in l.photos && u !in l.photos
    ensures HashesDistinct(Replaced(l, o, u).value) && Orderly(Replaced(l, o, u).value)
    ensures forall v :: v in Replaced(l, o, u).value.photos <==> v == u || (v in l.photos && v != o)
  {
    var r := Replaced(l, o, u).value;
    var at := IndexOf(l.photos, o);
    ReplacedKeepsOrderly(l, o, u);
    forall v ensures v in r.photos <==> v == u || (v in l.photos && v != o) {
      if v == u { assert r.photos[at] == u; }
      if v in l.photos && v != o {
        var i :| 0 <= i < |l.photos| && l.photos[i] == v;
        assert r.photos[i] == v;
      }
      if v in r.photos && v != u {
        var i :| 0 <= i < |r.photos| && r.photos[i] == v;
        assert i != at && l.photos[i] == v;
      }
    }
  }

  lemma LandReplaceKeepsInv(w: World, u: Uuid)
    requires Inv(w) && u in w.flights && w.flights[u].ToReplace?
    ensures Inv(LandReplace(w, u, w.flights[u]))
  {
    var f := w.flights[u];
    var w' := LandReplace(w, u, f);
    assert FlightOk(w, u);
    if w.memory.None? || f.oldId !in w.memory.value.photos {
      AbandonKeepsInv(w, u);
    } else {
      var l := w.memory.value;
      ReplacedListingOk(l, f.oldId, u);
      var placed := w.(flights := w.flights - {u}, memory := Some(Replaced(l, f.oldId, u).value));
      UnlinkKeepsCount(placed, {f.oldId});
      forall v ensures FlightOk(w', v) { assert FlightOk(w, v); }
    }
  }

  lemma DropPhotoKeepsInv(w: World, u: Uuid)
    requires Inv(w)
    ensures Inv(DropPhoto(w, u))
  {
    if Listed(w, u) {
      var w' := DropPhoto(w, u);
      RemovedKeepsOrderly(w.memory.value, u);
      UnlinkKeepsCount(w, {u});
      forall v ensures FlightOk(w', v) { assert FlightOk(w, v); }
    }
  }

  lemma ClearKeepsInv(w: World)
    requires Inv(w)
    ensures Inv(ClearPhotos(w))
  {
    if w.memory.Some? {
      var w' := ClearPhotos(w);
      UnlinkKeepsCount(w, set u | u in w.memory.value.photos);
      forall v ensures FlightOk(w', v) { assert FlightOk(w, v); }
    }
  }

  lemma DeleteMemoryKeepsInv(w: World)
    requires Inv(w)
    ensures Inv(Step(w, DeleteMemory))
  {
    if w.memory.Some? {
      var w' := Step(w, DeleteMemory);
      UnlinkKeepsCount(w, w.files.Keys);
      forall v ensures FlightOk(w', v) { assert FlightOk(w, v); }
    }
  }

  /** A step that only touches the queue keeps the invariant when the queue stays sound. */
  lemma RequeueKeepsInv(w: World, q: map<nat, Download>)
    requires Inv(w) && QueuedOk(w.(queued := q))
    ensures Inv(w.(queued := q))
  {
    var w' := w.(queued := q);
    forall v ensures FlightOk(w', v) { assert FlightOk(w, v); }
    assert forall v :: Listed(w', v) <==> Listed(w, v);
  }

  lemma StepKeepsInv(w: World, a: Action)
    requires Inv(w)
    ensures Inv(Step(w, a))
  {
    match a
    case Queue(job, rank) => RequeueKeepsInv(w, Step(w, a).queued);
    case Fetch(job, h) => RequeueKeepsInv(w, Step(w, a).queued);
    case GiveUp(job) => RequeueKeepsInv(w, w.queued - {job});
    case SaveDownload(job, u, size) => SaveDownloadKeepsInv(w, job, u, size);
    case SaveUpload(u, size) =>
      if u !in w.issued { SaveKeepsInv(w, u, size, ToPlace(None, None, None)); }
    case SaveReplacement(o, u, size) =>
      if u !in w.issued { SaveKeepsInv(w, u, size, ToReplace(o)); }
    case Land(u) =>
      if u in w.flights {
        if w.flights[u].ToPlace? { LandPlaceKeepsInv(w, u); } else { LandReplaceKeepsInv(w, u); }
      }
    case DeletePhoto(u) => DropPhotoKeepsInv(w, u);
    case Clear => ClearKeepsInv(w);
    case DeleteMemory => DeleteMemoryKeepsInv(w);
  }

  lemma {:induction false} RunKeepsInv(w: World, actions: seq<Action>)
    requires Inv(w)
    ensures Inv(Run(w, actions))
    decreases |actions|
  {
    if actions != [] {
      StepKeepsInv(w, actions[0]);
      RunKeepsInv(Step(w, actions[0]), actions[1..]);
    }
  }

  /** Every interleaving keeps files, list, storage counter, epochs and hashes in step. */
  lemma EveryRunKeepsPromises(elsewhere: nat, actions: seq<Action>)
    ensures Promised(Run(Init(elsewhere), actions))
  {
    var w := Init(elsewhere);
    forall v ensures FlightOk(w, v) {}
    RunKeepsInv(w, actions);
  }

  /** In every run the order state survives being written to its column and read back, as happens
      between any two lock sections; and whatever is written over the ranks and hashes there, the
      epoch read back still counts the clears, so no earlier download is let in again. */
  lemma StoredStateReadsBack(elsewhere: nat, actions: seq<Action>, ranks: Field, hashes: Field)
    ensures var w := Run(Init(elsewhere), actions);
            w.memory.Some? ==>
              && LoadState(Some(DumpState(w.memory.value.order))) == w.memory.value.order
              && LoadState(Some(Tampered(w.memory.value.order, ranks, hashes))).epoch == w.clears
  {
    var w := Init(elsewhere);
    forall v ensures FlightOk(w, v) {}
    RunKeepsInv(w, actions);
    if Run(w, actions).memory.Some? {
      StateRoundTrip(Run(w, actions).memory.value.order);
      EpochSurvives(Run(w, actions).memory.value.order, ranks, hashes);
    }
  }

  /** Once a memory is gone and nothing is in flight, its folder is empty and uncounted. */
  lemma NothingOrphaned(elsewhere: nat, actions: seq<Action>)
    ensures var w := Run(Init(elsewhere), actions);
            w.memory.None? && w.flights == map[] ==> w.files == map[] && w.usage == elsewhere
  {
    EveryRunKeepsPromises(elsewhere, actions);
    ElsewhereFixed(Init(elsewhere), actions);
  }

  lemma {:induction false} ElsewhereFixed(w: World, actions: seq<Action>)
    ensures Run(w, actions).elsewhere == w.elsewhere
    decreases |actions|
  {
    if actions != [] {
      ElsewhereFixed(Step(w, actions[0]), actions[1..]);
    }
  }
}
