/**
 What becomes of each photo over a run of the photo protocol (`api/memories.py`): when a photo
 that was saved gets listed, how long it stays, and in which order the list shows the photos,
 read off the history of the run alone.
 */
module PhotoLife {
  import opened Wrappers
  import opened StableOrder
  import opened PhotoOrder
  import opened PhotoRuns

  // ------------------------------------------------------------ how long a photo stays

  /** Takes `u` off the list: its deletion, the landing of its replacement, a clear, or the
      deletion of the memory. */
  predicate Ends(w: World, a: Action, u: Uuid) {
    || a == DeletePhoto(u) || a.Clear? || a.DeleteMemory?
    || (a.Land? && a.uuid in w.flights && w.flights[a.uuid] == ToReplace(u))
  }

  ghost predicate Spared(w: World, rest: seq<Action>, u: Uuid)
    decreases |rest|
  {
    rest == [] || (!Ends(w, rest[0], u) && Spared(Step(w, rest[0]), rest[1..], u))
  }

  lemma PlacedMembers(l: Listing, a: Arrival, u: Uuid)
    requires a.uuid !in l.photos
    ensures u in Placed(l, a).value.photos <==> u == a.uuid || u in l.photos
  {
    var at := InsertionPoint(RankLeq, View(l), a.rank);
    assert l.photos == l.photos[..at] + l.photos[at..];
  }

  lemma LandKeepsOthers(w: World, v: Uuid, u: Uuid)
    requires Inv(w) && u != v && v in w.flights
    ensures var w' := Step(w, Land(v));
            && w'.issued == w.issued && w'.flights == w.flights - {v}
            && (Listed(w', u) <==> Listed(w, u) && w.flights[v] != ToReplace(u))
  {
    assert FlightOk(w, v);
    if w.memory.Some? {
      var l, f := w.memory.value, w.flights[v];
      if f.ToPlace? {
        PlacedMembers(l, Arrival(v, f.rank, f.contentHash), u);
      } else if f.oldId in l.photos {
        ReplacedListingOk(l, f.oldId, v);
      }
    }
  }

  /** One step, seen by a photo that has landed. */
  lemma StepListed(w: World, a: Action, u: Uuid)
    requires Inv(w) && u in w.issued && u !in w.flights
    ensures u in Step(w, a).issued && u !in Step(w, a).flights
    ensures Listed(Step(w, a), u) <==> Listed(w, u) && !Ends(w, a, u)
  {
    if a.Land? {
      if a.uuid in w.flights { LandKeepsOthers(w, a.uuid, u); }
    } else if a.DeletePhoto? {
      DropListed(w, a.uuid, u);
    } else {
      StepListedOther(w, a, u);
    }
  }

  lemma DropListed(w: World, v: Uuid, u: Uuid)
    ensures var w' := DropPhoto(w, v);
            && w'.issued == w.issued && w'.flights == w.flights
            && (Listed(w', u) <==> Listed(w, u) && u != v)
  {
  }

  lemma StepListedOther(w: World, a: Action, u: Uuid)
    requires u in w.issued && u !in w.flights && !a.Land? && !a.DeletePhoto?
    ensures u in Step(w, a).issued && u !in Step(w, a).flights
    ensures Listed(Step(w, a), u) <==> Listed(w, u) && !Ends(w, a, u)
  {
  }

  /** A photo that has landed is listed later on if and only if it was listed then and nothing has
      taken it off since; once off the list it never comes back. */
  lemma {:induction false} ListedExactlyUntilEnded(w: World, rest: seq<Action>, u: Uuid)
    requires Inv(w) && u in w.issued && u !in w.flights
    ensures Listed(Run(w, rest), u) <==> Listed(w, u) && Spared(w, rest, u)
    decreases |rest|
  {
    if rest != [] {
      StepListed(w, rest[0], u);
      StepKeepsInv(w, rest[0]);
      ListedExactlyUntilEnded(Step(w, rest[0]), rest[1..], u);
    }
  }

  // ------------------------------------------------------------ photos on their way

  lemma FlightStays(w: World, a: Action, u: Uuid)
    requires Inv(w) && u in w.flights && a != Land(u)
    ensures u in Step(w, a).flights && Step(w, a).flights[u] == w.flights[u]
  {
    assert FlightOk(w, u);
    if a.Land? && a.uuid in w.flights { LandKeepsOthers(w, a.uuid, u); }
  }

  lemma {:induction false} StillInFlight(w: World, mid: seq<Action>, u: Uuid)
    requires Inv(w) && u in w.flights && Land(u) !in mid
    ensures Inv(Run(w, mid)) && u in Run(w, mid).flights && Run(w, mid).flights[u] == w.flights[u]
    decreases |mid|
  {
    if mid != [] {
      FlightStays(w, mid[0], u);
      StepKeepsInv(w, mid[0]);
      StillInFlight(Step(w, mid[0]), mid[1..], u);
    }
  }

  /** Some listed photo has this content. */
  ghost predicate Carried(l: Listing, h: string) {
    exists u :: u in l.photos && Get(l.order.hashes, u) == Some(h)
  }

  lemma PlaceLands(w: World, u: Uuid)
    requires Inv(w) && u in w.flights && w.flights[u].ToPlace?
    ensures var w', f := Step(w, Land(u)), w.flights[u];
            && Inv(w') && u in w'.issued && u !in w'.flights
            && (Listed(w', u) <==>
                  && w.memory.Some? && (f.epoch.Some? ==> f.epoch.value == w.clears)
                  && (f.contentHash.Some? ==> !Carried(w.memory.value, f.contentHash.value)))
            && (Listed(w', u) ==>
                  View(w'.memory.value) == Insert(RankLeq, View(w.memory.value), (f.rank, u)))
            && (w.memory.Some? && !Listed(w', u) ==> w'.memory == w.memory)
  {
    assert FlightOk(w, u);
    StepKeepsInv(w, Land(u));
    if w.memory.Some? {
      var l, f := w.memory.value, w.flights[u];
      var a := Arrival(u, f.rank, f.contentHash);
      if f.contentHash.Some? { HasHashMeans(l, f.contentHash.value); }
      PlacedMembers(l, a, u);
      PlacedView(l, a);
    }
  }

  /** An upload is listed from its landing on if and only if the memory is still there when it
      lands, as long as nothing takes it off. */
  lemma UploadListedExactly(w: World, u: Uuid, size: nat, mid: seq<Action>, rest: seq<Action>)
    requires Inv(w) && u !in w.issued && Land(u) !in mid
    ensures var before := Run(Step(w, SaveUpload(u, size)), mid);
            var after := Step(before, Land(u));
            Listed(Run(after, rest), u) <==> before.memory.Some? && Spared(after, rest, u)
  {
    StepKeepsInv(w, SaveUpload(u, size));
    StillInFlight(Step(w, SaveUpload(u, size)), mid, u);
    var before := Run(Step(w, SaveUpload(u, size)), mid);
    PlaceLands(before, u);
    ListedExactlyUntilEnded(Step(before, Land(u)), rest, u);
  }

  predicate Concerns(a: Action, job: nat) {
    (a.Fetch? || a.GiveUp? || a.SaveDownload?) && a.job == job
  }

  lemma JobStays(w: World, a: Action, job: nat)
    requires job in w.queued && !Concerns(a, job)
    ensures job in Step(w, a).queued && Step(w, a).queued[job] == w.queued[job]
  {
  }

  lemma {:induction false} StillQueued(w: World, mid: seq<Action>, job: nat)
    requires Inv(w) && job in w.queued && forall i :: 0 <= i < |mid| ==> !Concerns(mid[i], job)
    ensures Inv(Run(w, mid)) && job in Run(w, mid).queued && Run(w, mid).queued[job] == w.queued[job]
    decreases |mid|
  {
    if mid != [] {
      StepKeepsInv(w, mid[0]);
      JobStays(w, mid[0], job);
      StillQueued(Step(w, mid[0]), mid[1..], job);
    }
  }

  /** A download queued for a living memory and fetched while no listed photo had its content. */
  lemma DownloadFetched(w: World, job: nat, rank: Option<int>, mid1: seq<Action>, h: string, mid2: seq<Action>)
    requires Inv(w) && w.memory.Some? && job !in w.queued && IsHash(h)
    requires forall i :: 0 <= i < |mid1| ==> !Concerns(mid1[i], job)
    requires forall i :: 0 <= i < |mid2| ==> !Concerns(mid2[i], job)
    requires var w1 := Run(Step(w, Queue(job, rank)), mid1); w1.memory.Some? ==> !Carried(w1.memory.value, h)
    ensures var w1 := Run(Step(w, Queue(job, rank)), mid1);
            var w2 := Run(Step(w1, Fetch(job, h)), mid2);
            Inv(w2) && job in w2.queued && w2.queued[job] == Download(rank, w.clears, w.clears, Some(h))
  {
    StepKeepsInv(w, Queue(job, rank));
    StillQueued(Step(w, Queue(job, rank)), mid1, job);
    var w1 := Run(Step(w, Queue(job, rank)), mid1);
    FetchNotes(w1, job, h);
    StepKeepsInv(w1, Fetch(job, h));
    StillQueued(Step(w1, Fetch(job, h)), mid2, job);
  }

  lemma FetchNotes(w: World, job: nat, h: string)
    requires job in w.queued && IsHash(h) && (w.memory.Some? ==> !Carried(w.memory.value, h))
    ensures var w' := Step(w, Fetch(job, h));
            job in w'.queued && w'.queued[job] == w.queued[job].(contentHash := Some(h))
  {
    if w.memory.Some? { HasHashMeans(w.memory.value, h); }
  }

  /** Once saved, it is in flight with what it was queued and fetched with until it lands. */
  lemma DownloadInFlight(w: World, job: nat, d: Download, u: Uuid, size: nat, mid: seq<Action>)
    requires Inv(w) && job in w.queued && w.queued[job] == d && d.contentHash.Some?
    requires u !in w.issued && Land(u) !in mid
    ensures var w' := Run(Step(w, SaveDownload(job, u, size)), mid);
            Inv(w') && u in w'.flights && w'.flights[u] == ToPlace(d.rank, Some(d.epoch), d.contentHash)
  {
    StepKeepsInv(w, SaveDownload(job, u, size));
    StillInFlight(Step(w, SaveDownload(job, u, size)), mid, u);
  }

  /** Such a download is listed from its landing on if and only if the memory is still there, there
      was no clear since it was queued and no listed photo has its content, as long as nothing
      takes it off; and it is put where its rank belongs. */
  lemma DownloadListedExactly(w: World, job: nat, rank: Option<int>, mid1: seq<Action>, h: string,
                              mid2: seq<Action>, u: Uuid, size: nat, mid3: seq<Action>, rest: seq<Action>)
    requires Inv(w) && w.memory.Some? && job !in w.queued && IsHash(h)
    requires forall i :: 0 <= i < |mid1| ==> !Concerns(mid1[i], job)
    requires forall i :: 0 <= i < |mid2| ==> !Concerns(mid2[i], job)
    requires var w1 := Run(Step(w, Queue(job, rank)), mid1);
             var w2 := Run(Step(w1, Fetch(job, h)), mid2);
             (w1.memory.Some? ==> !Carried(w1.memory.value, h)) && u !in w2.issued && Land(u) !in mid3
    ensures var w1 := Run(Step(w, Queue(job, rank)), mid1);
            var w2 := Run(Step(w1, Fetch(job, h)), mid2);
            var w3 := Run(Step(w2, SaveDownload(job, u, size)), mid3);
            var after := Step(w3, Land(u));
            && (Listed(Run(after, rest), u) <==>
                  && w3.memory.Some? && w3.clears == w.clears && !Carried(w3.memory.value, h)
                  && Spared(after, rest, u))
            && (Listed(after, u) ==>
                  View(after.memory.value) == Insert(RankLeq, View(w3.memory.value), (rank, u)))
  {
    DownloadFetched(w, job, rank, mid1, h, mid2);
    var w1 := Run(Step(w, Queue(job, rank)), mid1);
    var w2 := Run(Step(w1, Fetch(job, h)), mid2);
    DownloadInFlight(w2, job, w2.queued[job], u, size, mid3);
    var w3 := Run(Step(w2, SaveDownload(job, u, size)), mid3);
    PlaceLands(w3, u);
    ListedExactlyUntilEnded(Step(w3, Land(u)), rest, u);
  }

  lemma ReplaceLands(w: World, u: Uuid)
    requires Inv(w) && u in w.flights && w.flights[u].ToReplace?
    ensures var w', former := Step(w, Land(u)), w.flights[u].oldId;
            && Inv(w') && u in w'.issued && u !in w'.flights
            && (Listed(w', u) <==> Listed(w, former))
            && (Listed(w', u) ==>
                  var at := IndexOf(w.memory.value.photos, former);
                  var v := View(w.memory.value);
                  View(w'.memory.value) == v[at := (v[at].0, u)] && former !in w'.files)
            && (w.memory.Some? && !Listed(w', u) ==> w'.memory == w.memory)
  {
    assert FlightOk(w, u);
    StepKeepsInv(w, Land(u));
    if Listed(w, w.flights[u].oldId) {
      ReplacedListingOk(w.memory.value, w.flights[u].oldId, u);
      ReplacedKeepsOrderly(w.memory.value, w.flights[u].oldId, u);
    }
  }

  /** A replacement is listed from its landing on, in the place and with the rank of the photo it
      replaces, if and only if that photo is listed then, as long as nothing takes it off. */
  lemma ReplacementListedExactly(w: World, u: Uuid, v: Uuid, size: nat, mid: seq<Action>, rest: seq<Action>)
    requires Inv(w) && v !in w.issued && Land(v) !in mid
    ensures var before := Run(Step(w, SaveReplacement(u, v, size)), mid);
            var after := Step(before, Land(v));
            && (Listed(Run(after, rest), v) <==> Listed(before, u) && Spared(after, rest, v))
            && (Listed(before, u) ==>
                  var at := IndexOf(before.memory.value.photos, u);
                  var shown := View(before.memory.value);
                  View(after.memory.value) == shown[at := (shown[at].0, v)] && u !in after.files)
  {
    StepKeepsInv(w, SaveReplacement(u, v, size));
    StillInFlight(Step(w, SaveReplacement(u, v, size)), mid, v);
    var before := Run(Step(w, SaveReplacement(u, v, size)), mid);
    ReplaceLands(before, v);
    ListedExactlyUntilEnded(Step(before, Land(v)), rest, v);
  }

  // ------------------------------------------- the list, read off the history of a run

  /** What a download was given: its rank and the clears so far when it was queued, and the hash of
      what was fetched. */
  datatype Given = Given(rank: Option<int>, clears: nat, contentHash: Option<string>)

  ghost function JobGiven(elsewhere: nat, actions: seq<Action>, job: nat): Given {
    if actions == [] then Given(None, 0, None)
    else
      var n := |actions| - 1;
      var w, before := Run(Init(elsewhere), actions[..n]), JobGiven(elsewhere, actions[..n], job);
      match actions[n]
      case Queue(j, rank) =>
        if j == job && job !in w.queued && w.memory.Some? then Given(rank, w.clears, None) else before
      case Fetch(j, h) => if j == job && job in w.queued && IsHash(h) then before.(contentHash := Some(h)) else before
      case _ => before
  }

  /** What a photo that was saved and has not landed is there for. */
  datatype Errand = Upload | Import(given: Given) | Replacement(oldId: Uuid)

  ghost function ErrandOf(elsewhere: nat, actions: seq<Action>, u: Uuid): Option<Errand> {
    if actions == [] then None
    else
      var n := |actions| - 1;
      var w, before := Run(Init(elsewhere), actions[..n]), ErrandOf(elsewhere, actions[..n], u);
      match actions[n]
      case Land(v) => if v == u then None else before
      case SaveUpload(v, _) => if v == u && u !in w.issued then Some(Upload) else before
      case SaveReplacement(o, v, _) => if v == u && u !in w.issued then Some(Replacement(o)) else before
      case SaveDownload(job, v, _) =>
        if v == u && u !in w.issued && job in w.queued && JobGiven(elsewhere, actions[..n], job).contentHash.Some?
        then Some(Import(JobGiven(elsewhere, actions[..n], job))) else before
      case _ => before
  }

  lemma {:induction false} RunSplit(w: World, actions: seq<Action>, i: nat)
    requires i <= |actions|
    ensures Run(w, actions) == Run(Run(w, actions[..i]), actions[i..])
    decreases i
  {
    if i > 0 {
      RunSplit(Step(w, actions[0]), actions[1..], i - 1);
      assert actions[1..][..i - 1] == actions[..i][1..] && actions[1..][i - 1..] == actions[i..];
    }
  }

  lemma RunSnoc(w: World, actions: seq<Action>)
    requires actions != []
    ensures var n := |actions| - 1; Run(w, actions) == Step(Run(w, actions[..n]), actions[n])
  {
    var n := |actions| - 1;
    RunSplit(w, actions, n);
    assert actions[n..][1..] == [];
    assert Run(Step(Run(w, actions[..n]), actions[n]), []) == Step(Run(w, actions[..n]), actions[n]);
  }

  lemma RunInv(elsewhere: nat, actions: seq<Action>)
    ensures Inv(Run(Init(elsewhere), actions))
  {
    var w := Init(elsewhere);
    forall v ensures FlightOk(w, v) {}
    RunKeepsInv(w, actions);
  }

  ghost predicate JobMatches(w: World, job: nat, g: Given) {
    job in w.queued ==> w.queued[job] == Download(g.rank, g.clears, g.clears, g.contentHash)
  }

  lemma JobStepMatches(w: World, a: Action, job: nat, g: Given, g': Given)
    requires Inv(w) && JobMatches(w, job, g)
    requires g' == if a.Queue? && a.job == job && job !in w.queued && w.memory.Some? then Given(a.rank, w.clears, None)
                   else if a.Fetch? && a.job == job && job in w.queued && IsHash(a.contentHash)
                   then g.(contentHash := Some(a.contentHash)) else g
    ensures JobMatches(Step(w, a), job, g')
  {
    if job in w.queued && !Concerns(a, job) { JobStays(w, a, job); }
  }

  lemma {:induction false} JobsMatch(elsewhere: nat, actions: seq<Action>, job: nat)
    ensures JobMatches(Run(Init(elsewhere), actions), job, JobGiven(elsewhere, actions, job))
  {
    if actions != [] {
      var n := |actions| - 1;
      RunSnoc(Init(elsewhere), actions);
      RunInv(elsewhere, actions[..n]);
      JobsMatch(elsewhere, actions[..n], job);
      JobStepMatches(Run(Init(elsewhere), actions[..n]), actions[n], job,
                     JobGiven(elsewhere, actions[..n], job), JobGiven(elsewhere, actions, job));
    }
  }

  function FlightFor(e: Errand): Flight {
    match e
    case Upload => ToPlace(None, None, None)
    case Import(g) => ToPlace(g.rank, Some(g.clears), g.contentHash)
    case Replacement(o) => ToReplace(o)
  }

  ghost predicate ErrandMatches(w: World, u: Uuid, e: Option<Errand>) {
    if u in w.flights then e.Some? && w.flights[u] == FlightFor(e.value) else e.None?
  }

  lemma LandEnds(w: World, u: Uuid)
    requires Inv(w) && u in w.flights
    ensures u !in Step(w, Land(u)).flights
  {
    if w.flights[u].ToPlace? { PlaceLands(w, u); } else { ReplaceLands(w, u); }
  }

  predicate Saves(a: Action, u: Uuid) {
    (a.SaveUpload? || a.SaveReplacement? || a.SaveDownload?) && a.uuid == u
  }

  lemma FlightBegins(w: World, a: Action, u: Uuid)
    requires Inv(w) && u !in w.flights
    ensures u in Step(w, a).flights <==>
              && u !in w.issued && Saves(a, u)
              && (a.SaveDownload? ==> a.job in w.queued && w.queued[a.job].contentHash.Some?)
    ensures u in Step(w, a).flights ==>
              Step(w, a).flights[u]
              == if a.SaveUpload? then ToPlace(None, None, None) else if a.SaveReplacement? then ToReplace(a.oldId)
                 else ToPlace(w.queued[a.job].rank, Some(w.queued[a.job].epoch), w.queued[a.job].contentHash)
  {
    if a.Land? && a.uuid in w.flights { LandKeepsOthers(w, a.uuid, u); }
  }

  lemma ErrandStepMatches(w: World, a: Action, u: Uuid, e: Option<Errand>, e': Option<Errand>, g: Given)
    requires Inv(w) && ErrandMatches(w, u, e) && (a.SaveDownload? ==> JobMatches(w, a.job, g))
    requires e' == if a == Land(u) then None
                   else if u in w.issued || !Saves(a, u) then e
                   else if a.SaveUpload? then Some(Upload)
                   else if a.SaveReplacement? then Some(Replacement(a.oldId))
                   else if a.job in w.queued && g.contentHash.Some? then Some(Import(g)) else e
    ensures ErrandMatches(Step(w, a), u, e')
  {
    if u in w.flights {
      assert FlightOk(w, u);
      if a == Land(u) { LandEnds(w, u); } else { FlightStays(w, a, u); }
    } else {
      FlightBegins(w, a, u);
    }
  }

  lemma {:induction false} ErrandsMatch(elsewhere: nat, actions: seq<Action>, u: Uuid)
    ensures ErrandMatches(Run(Init(elsewhere), actions), u, ErrandOf(elsewhere, actions, u))
  {
    if actions != [] {
      var n := |actions| - 1;
      var a := actions[n];
      RunSnoc(Init(elsewhere), actions);
      RunInv(elsewhere, actions[..n]);
      ErrandsMatch(elsewhere, actions[..n], u);
      var job := if a.SaveDownload? then a.job else 0;
      JobsMatch(elsewhere, actions[..n], job);
      ErrandStepMatches(Run(Init(elsewhere), actions[..n]), a, u, ErrandOf(elsewhere, actions[..n], u),
                        ErrandOf(elsewhere, actions, u), JobGiven(elsewhere, actions[..n], job));
    }
  }

  /** The list as its history tells it, or None once the memory is deleted: each photo with its
      rank. A photo that lands goes before the first photo that ranks later. */
  ghost function Shown(elsewhere: nat, actions: seq<Action>): Option<seq<(Option<int>, Uuid)>> {
    if actions == [] then Some([])
    else
      var n := |actions| - 1;
      var w, before := Run(Init(elsewhere), actions[..n]), Shown(elsewhere, actions[..n]);
      if before.None? then None
      else match actions[n]
        case DeleteMemory => None
        case Clear => Some([])
        case DeletePhoto(u) => Some(ViewWithout(before.value, u))
        case Land(u) => Some(ShownLanding(w, before.value, u, ErrandOf(elsewhere, actions[..n], u)))
        case _ => before
  }

  /** Whether a download that lands now is accepted: no clear since it was queued, and no listed
      photo has its content. */
  ghost predicate Accepted(w: World, g: Given) {
    && g.clears == w.clears
    && !(w.memory.Some? && g.contentHash.Some? && Carried(w.memory.value, g.contentHash.value))
  }

  ghost function ShownLanding(w: World, shown: seq<(Option<int>, Uuid)>, u: Uuid, e: Option<Errand>)
    : seq<(Option<int>, Uuid)>
  {
    match e
    case None => shown
    case Some(Upload) => Insert(RankLeq, shown, (None, u))
    case Some(Import(g)) => if Accepted(w, g) then Insert(RankLeq, shown, (g.rank, u)) else shown
    case Some(Replacement(o)) => ViewReplaced(shown, o, u)
  }

  function ViewReplaced(v: seq<(Option<int>, Uuid)>, o: Uuid, u: Uuid): seq<(Option<int>, Uuid)> {
    if v == [] then [] else if v[0].1 == o then [(v[0].0, u)] + v[1..] else [v[0]] + ViewReplaced(v[1..], o, u)
  }

  lemma {:induction false} ViewReplacedAt(photos: seq<Uuid>, v: seq<(Option<int>, Uuid)>, o: Uuid, u: Uuid)
    requires |v| == |photos| && forall i :: 0 <= i < |v| ==> v[i].1 == photos[i]
    ensures ViewReplaced(v, o, u)
         == if o in photos then v[IndexOf(photos, o) := (v[IndexOf(photos, o)].0, u)] else v
  {
    if v != [] && photos[0] != o {
      ViewReplacedAt(photos[1..], v[1..], o, u);
      assert v == [v[0]] + v[1..];
    }
  }

  ghost predicate Shows(w: World, shown: Option<seq<(Option<int>, Uuid)>>) {
    if w.memory.None? then shown.None? else shown == Some(View(w.memory.value))
  }

  lemma LandingShown(w: World, u: Uuid, e: Option<Errand>)
    requires Inv(w) && w.memory.Some? && ErrandMatches(w, u, e)
    ensures var w' := Step(w, Land(u));
            w'.memory.Some? && View(w'.memory.value) == ShownLanding(w, View(w.memory.value), u, e)
  {
    if e.Some? {
      assert FlightOk(w, u);
      if e.value.Replacement? {
        ReplaceLands(w, u);
        ViewReplacedAt(w.memory.value.photos, View(w.memory.value), e.value.oldId, u);
      } else {
        PlaceLands(w, u);
      }
    }
  }

  lemma StepShown(w: World, a: Action)
    requires w.memory.Some? && !a.Land?
    ensures var w' := Step(w, a);
            if a.DeleteMemory? then w'.memory.None?
            else w'.memory.Some? && View(w'.memory.value)
                 == if a.Clear? then [] else if a.DeletePhoto? then ViewWithout(View(w.memory.value), a.uuid)
                    else View(w.memory.value)
  {
    if a.DeletePhoto? {
      DropShown(w, a.uuid);
    } else if a.Clear? {
      assert View(ClearPhotos(w).memory.value) == [];
    } else if !a.DeleteMemory? {
      MemoryUntouched(w, a);
    }
  }

  lemma DropShown(w: World, u: Uuid)
    requires w.memory.Some?
    ensures DropPhoto(w, u).memory.Some?
    ensures View(DropPhoto(w, u).memory.value) == ViewWithout(View(w.memory.value), u)
  {
    if u in w.memory.value.photos {
      RemovedView(w.memory.value, u);
    } else {
      NothingWithout(View(w.memory.value), u);
    }
  }

  lemma MemoryUntouched(w: World, a: Action)
    requires !a.Land? && !a.DeletePhoto? && !a.Clear? && !a.DeleteMemory?
    ensures Step(w, a).memory == w.memory
  {
  }

  lemma {:induction false} NothingWithout(v: seq<(Option<int>, Uuid)>, u: Uuid)
    requires forall i :: 0 <= i < |v| ==> v[i].1 != u
    ensures ViewWithout(v, u) == v
  {
    if v != [] { NothingWithout(v[1..], u); }
  }

  lemma GoneStays(w: World, a: Action)
    requires w.memory.None?
    ensures Step(w, a).memory.None?
  {
  }

  /** In every run the list is the one its history tells: every photo that was accepted, where its
      rank put it or in place of the photo it replaced, until it was taken off. */
  lemma {:induction false} ListFollowsHistory(elsewhere: nat, actions: seq<Action>)
    ensures Shows(Run(Init(elsewhere), actions), Shown(elsewhere, actions))
  {
    if actions == [] {
      assert View(Init(elsewhere).memory.value) == [];
    } else {
      var n := |actions| - 1;
      var w, a := Run(Init(elsewhere), actions[..n]), actions[n];
      RunSnoc(Init(elsewhere), actions);
      RunInv(elsewhere, actions[..n]);
      ListFollowsHistory(elsewhere, actions[..n]);
      if w.memory.None? {
        GoneStays(w, a);
      } else if a.Land? {
        ErrandsMatch(elsewhere, actions[..n], a.uuid);
        LandingShown(w, a.uuid, ErrandOf(elsewhere, actions[..n], a.uuid));
      } else {
        StepShown(w, a);
      }
    }
  }

  // ------------------------------------------------------- landings alone: by rank

  /** The photos that landed and were accepted, in the order of their landings, each with the rank
      it was queued with. */
  ghost function Landings(elsewhere: nat, actions: seq<Action>): seq<(Option<int>, Uuid)> {
    if actions == [] then []
    else
      var n := |actions| - 1;
      var w, before := Run(Init(elsewhere), actions[..n]), Landings(elsewhere, actions[..n]);
      if !actions[n].Land? then before
      else before + Arrived(w, actions[n].uuid, ErrandOf(elsewhere, actions[..n], actions[n].uuid))
  }

  /** The photo that lands, if it is an upload or a download that is accepted. */
  ghost function Arrived(w: World, u: Uuid, e: Option<Errand>): seq<(Option<int>, Uuid)> {
    match e
    case Some(Upload) => [(None, u)]
    case Some(Import(g)) => if Accepted(w, g) then [(g.rank, u)] else []
    case _ => []
  }

  predicate OnlyAdds(a: Action) {
    !a.DeleteMemory? && !a.Clear? && !a.DeletePhoto? && !a.SaveReplacement?
  }

  lemma {:induction false} NoReplacements(elsewhere: nat, actions: seq<Action>, u: Uuid)
    requires forall i :: 0 <= i < |actions| ==> OnlyAdds(actions[i])
    ensures ErrandOf(elsewhere, actions, u).Some? ==> !ErrandOf(elsewhere, actions, u).value.Replacement?
  {
    if actions != [] { NoReplacements(elsewhere, actions[..|actions| - 1], u); }
  }

  lemma {:induction false} InsertAllOneMore<K, T>(leq: (K, K) -> bool, s: seq<(K, T)>, es: seq<(K, T)>, e: (K, T))
    ensures InsertAll(leq, s, es + [e]) == Insert(leq, InsertAll(leq, s, es), e)
    decreases |es|
  {
    if es == [] {
      assert ([e])[1..] == [] && es + [e] == [e];
      assert InsertAll(leq, Insert(leq, s, e), []) == Insert(leq, s, e);
    } else {
      assert (es + [e])[1..] == es[1..] + [e];
      InsertAllOneMore(leq, Insert(leq, s, es[0]), es[1..], e);
    }
  }

  lemma {:induction false} ShownIsLandings(elsewhere: nat, actions: seq<Action>)
    requires forall i :: 0 <= i < |actions| ==> OnlyAdds(actions[i])
    ensures Shown(elsewhere, actions) == Some(InsertAll(RankLeq, [], Landings(elsewhere, actions)))
  {
    if actions != [] {
      var n := |actions| - 1;
      ShownIsLandings(elsewhere, actions[..n]);
      assert OnlyAdds(actions[n]);
      if actions[n].Land? {
        NoReplacements(elsewhere, actions[..n], actions[n].uuid);
        OneMoreLanding(Run(Init(elsewhere), actions[..n]), Landings(elsewhere, actions[..n]), actions[n].uuid,
                       ErrandOf(elsewhere, actions[..n], actions[n].uuid));
      }
    }
  }

  lemma OneMoreLanding(w: World, landed: seq<(Option<int>, Uuid)>, u: Uuid, e: Option<Errand>)
    requires e.Some? ==> !e.value.Replacement?
    ensures ShownLanding(w, InsertAll(RankLeq, [], landed), u, e) == InsertAll(RankLeq, [], landed + Arrived(w, u, e))
  {
    if Arrived(w, u, e) == [] {
      assert landed + [] == landed;
    } else {
      InsertAllOneMore(RankLeq, [], landed, Arrived(w, u, e)[0]);
    }
  }

  /** When landings are all that touches the list, it is sorted by the ranks given when the
      downloads were queued, unranked photos last, with equal ranks in the order of landing. */
  lemma LandingsSortedByRank(elsewhere: nat, actions: seq<Action>, rank: Option<int>)
    requires forall i :: 0 <= i < |actions| ==> OnlyAdds(actions[i])
    ensures var w := Run(Init(elsewhere), actions);
            && w.memory.Some? && Sorted(RankLeq, View(w.memory.value))
            && WithKey(View(w.memory.value), rank) == WithKey(Landings(elsewhere, actions), rank)
  {
    ListFollowsHistory(elsewhere, actions);
    ShownIsLandings(elsewhere, actions);
    RankLeqTotal();
    InsertAllIsStable(RankLeq, [], Landings(elsewhere, actions), rank);
    assert [] + WithKey(Landings(elsewhere, actions), rank) == WithKey(Landings(elsewhere, actions), rank);
  }

  // -------------------------------------------------------- downloads that are dropped

  lemma {:induction false} StillNotQueued(w: World, mid: seq<Action>, job: nat)
    requires job !in w.queued && forall i :: 0 <= i < |mid| ==> !(mid[i].Queue? && mid[i].job == job)
    ensures job !in Run(w, mid).queued
    decreases |mid|
  {
    if mid != [] {
      NotQueuedStays(w, mid[0], job);
      StillNotQueued(Step(w, mid[0]), mid[1..], job);
    }
  }

  lemma NotQueuedStays(w: World, a: Action, job: nat)
    requires job !in w.queued && !(a.Queue? && a.job == job)
    ensures job !in Step(w, a).queued
  {
  }

  /** A download that is given up, or whose content a listed photo has when it is fetched, saves
      nothing any more unless it is queued anew. */
  lemma DroppedSavesNothing(w: World, job: nat, h: string, mid: seq<Action>, u: Uuid, size: nat)
    requires forall i :: 0 <= i < |mid| ==> !(mid[i].Queue? && mid[i].job == job)
    ensures var later := Run(Step(w, GiveUp(job)), mid); Step(later, SaveDownload(job, u, size)) == later
    ensures IsHash(h) && w.memory.Some? && Carried(w.memory.value, h) ==>
              var later := Run(Step(w, Fetch(job, h)), mid); Step(later, SaveDownload(job, u, size)) == later
  {
    StillNotQueued(Step(w, GiveUp(job)), mid, job);
    if IsHash(h) && w.memory.Some? && Carried(w.memory.value, h) {
      HasHashMeans(w.memory.value, h);
      StillNotQueued(Step(w, Fetch(job, h)), mid, job);
    }
  }

  // ------------------------------------------------------------------ what files occupy

  /** The size a photo was saved with. */
  ghost function SavedSize(elsewhere: nat, actions: seq<Action>, u: Uuid): nat {
    if actions == [] then 0
    else
      var n := |actions| - 1;
      var w, a := Run(Init(elsewhere), actions[..n]), actions[n];
      if Saves(a, u) && u !in w.issued && (a.SaveDownload? ==> a.job in w.queued && w.queued[a.job].contentHash.Some?)
      then a.size else SavedSize(elsewhere, actions[..n], u)
  }

  lemma FileStep(w: World, a: Action, u: Uuid)
    requires u in Step(w, a).files
    ensures if Saves(a, u) && u !in w.issued
               && (a.SaveDownload? ==> a.job in w.queued && w.queued[a.job].contentHash.Some?)
            then Step(w, a).files[u] == a.size else u in w.files && Step(w, a).files[u] == w.files[u]
  {
  }

  /** In every run each file there is has the size it was saved with, which is what the storage
      counter counts. */
  lemma {:induction false} FilesAsSaved(elsewhere: nat, actions: seq<Action>, u: Uuid)
    requires u in Run(Init(elsewhere), actions).files
    ensures Run(Init(elsewhere), actions).files[u] == SavedSize(elsewhere, actions, u)
  {
    if actions != [] {
      var n := |actions| - 1;
      RunSnoc(Init(elsewhere), actions);
      FileStep(Run(Init(elsewhere), actions[..n]), actions[n], u);
      if u in Run(Init(elsewhere), actions[..n]).files { FilesAsSaved(elsewhere, actions[..n], u); }
    }
  }
}
