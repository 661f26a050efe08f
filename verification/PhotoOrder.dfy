/**
 Rank-based photo placement (`api/photo_order.py`).

 A `Listing` is the display-ordered list of photo ids of one memory together with the
 order state kept beside it: an epoch, the ranks and the content hashes. Photos are
 placed by rank, equal ranks in arrival order, unranked photos at the end.
 */
module PhotoOrder {
  import opened Wrappers
  import opened StableOrder

  type Uuid = string

  datatype Order = Order(epoch: int, ranks: map<Uuid, int>, hashes: map<Uuid, string>)

  datatype Listing = Listing(photos: seq<Uuid>, order: Order)

  datatype Arrival = Arrival(uuid: Uuid, rank: Option<int>, contentHash: Option<string>)

  /** Ranks in display order: no rank comes after every rank. */
  predicate RankLeq(a: Option<int>, b: Option<int>) {
    b.None? || (a.Some? && a.value <= b.value)
  }

  lemma RankLeqTotal()
    ensures TotalOrder(RankLeq)
  {
  }

  function SetOrDrop<V>(m: map<Uuid, V>, u: Uuid, v: Option<V>): map<Uuid, V> {
    if v.None? then m - {u} else m[u := v.value]
  }

  /** What a reader of the list can tell about it: each listed photo with its rank. */
  function View(l: Listing): (v: seq<(Option<int>, Uuid)>)
    ensures |v| == |l.photos|
    ensures forall i :: 0 <= i < |v| ==> v[i] == (Get(l.order.ranks, l.photos[i]), l.photos[i])
  {
    seq(|l.photos|, i requires 0 <= i < |l.photos| => (Get(l.order.ranks, l.photos[i]), l.photos[i]))
  }

  // ---------------------------------------------------------------- operations

  /** `place`; None stands for the ValueError raised for a photo already listed. */
  function Placed(l: Listing, a: Arrival): Option<Listing> {
    if a.uuid in l.photos then None
    else
      var at := InsertionPoint(RankLeq, View(l), a.rank);
      Some(Listing(l.photos[..at] + [a.uuid] + l.photos[at..],
                   Order(l.order.epoch,
                         SetOrDrop(l.order.ranks, a.uuid, a.rank),
                         SetOrDrop(l.order.hashes, a.uuid, a.contentHash))))
  }

  /** `place` as written: copy, scan for the slot, insert, record. */
  method Place(l: Listing, a: Arrival) returns (r: Option<Listing>)
    ensures r == Placed(l, a)
  {
    if a.uuid in l.photos {
      return None;
    }
    var ranks, hashes := l.order.ranks, l.order.hashes;
    if a.contentHash.None? {
      hashes := hashes - {a.uuid};
    } else {
      hashes := hashes[a.uuid := a.contentHash.value];
    }
    var photos := l.photos;
    if a.rank.None? {
      ranks := ranks - {a.uuid};
      InsertionPointUnique(RankLeq, View(l), a.rank, |photos|);
      photos := photos + [a.uuid];
      assert photos == l.photos[..|l.photos|] + [a.uuid] + l.photos[|l.photos|..];
    } else {
      var at, i := |photos|, 0;
      while i < |photos|
        invariant 0 <= i <= |photos| && at == |photos|
        invariant forall j :: 0 <= j < i ==> RankLeq(View(l)[j].0, a.rank)
      {
        if photos[i] !in ranks || ranks[photos[i]] > a.rank.value {
          at := i;
          break;
        }
        i := i + 1;
      }
      InsertionPointUnique(RankLeq, View(l), a.rank, at);
      photos := photos[..at] + [a.uuid] + photos[at..];
      ranks := ranks[a.uuid := a.rank.value];
    }
    r := Some(Listing(photos, Order(l.order.epoch, ranks, hashes)));
  }

  function Without(s: seq<Uuid>, u: Uuid): (r: seq<Uuid>)
    ensures forall x :: x in r <==> x in s && x != u
  {
    if s == [] then [] else (if s[0] != u then [s[0]] else []) + Without(s[1..], u)
  }

  /** `remove`. */
  function Removed(l: Listing, u: Uuid): Listing {
    Listing(Without(l.photos, u), Order(l.order.epoch, l.order.ranks - {u}, l.order.hashes - {u}))
  }

  function IndexOf(s: seq<Uuid>, u: Uuid): (i: nat)
    requires u in s
    ensures i < |s| && s[i] == u
  {
    if s[0] == u then 0 else 1 + IndexOf(s[1..], u)
  }

  /** `replace`; None when the photo to replace is not listed. */
  function Replaced(l: Listing, oldId: Uuid, newId: Uuid): Option<Listing> {
    if oldId !in l.photos then None
    else Some(Listing(l.photos[IndexOf(l.photos, oldId) := newId],
                      Order(l.order.epoch,
                            SetOrDrop(l.order.ranks - {oldId}, newId, Get(l.order.ranks, oldId)),
                            SetOrDrop(l.order.hashes - {oldId}, newId, Get(l.order.hashes, oldId)))))
  }

  /** `clear`: the order state of an emptied list. */
  function Cleared(o: Order): Order {
    Order(o.epoch + 1, map[], map[])
  }

  predicate IsHash(h: string) {
    |h| == 64 && forall i :: 0 <= i < |h| ==> '0' <= h[i] <= '9' || 'a' <= h[i] <= 'f'
  }

  /** `has_hash`. */
  predicate HasHash(l: Listing, h: string) {
    IsHash(h) && exists i :: 0 <= i < |l.photos| && Get(l.order.hashes, l.photos[i]) == Some(h)
  }

  // -------------------------------------------------------------- the stored form

  /** A value of the parsed `photo_order_json`, as far as reading it tells values apart. */
  datatype Field = Int(n: int) | Text(s: string) | Map(entries: map<string, Field>) | Other

  function FieldOf(raw: map<string, Field>, name: string): Field {
    if name in raw then raw[name] else Other
  }

  function ReadableRanks(m: map<string, Field>): map<Uuid, int> {
    map u | u in m && m[u].Int? :: m[u].n
  }

  function ReadableHashes(m: map<string, Field>): map<Uuid, string> {
    map u | u in m && m[u].Text? && IsHash(m[u].s) :: m[u].s
  }

  /** `load_state`: each field is read on its own and malformed entries are dropped one by one;
      None stands for a missing or unreadable column. */
  function LoadState(raw: Option<Field>): Order {
    if raw.None? || !raw.value.Map? then Order(0, map[], map[])
    else
      var epoch := FieldOf(raw.value.entries, "epoch");
      var ranks := FieldOf(raw.value.entries, "ranks");
      var hashes := FieldOf(raw.value.entries, "hashes");
      Order(if epoch.Int? then epoch.n else 0,
            if ranks.Map? then ReadableRanks(ranks.entries) else map[],
            if hashes.Map? then ReadableHashes(hashes.entries) else map[])
  }

  /** `dump_state`. */
  function DumpState(o: Order): Field {
    Map(map["epoch" := Int(o.epoch),
            "ranks" := Map(map u | u in o.ranks :: Int(o.ranks[u])),
            "hashes" := Map(map u | u in o.hashes :: Text(o.hashes[u]))])
  }

  /** A written state reads back as itself exactly when its hashes are well formed, and its
      epoch and ranks always do. */
  lemma StateRoundTrip(o: Order)
    ensures LoadState(Some(DumpState(o))) == o <==> forall u :: u in o.hashes ==> IsHash(o.hashes[u])
    ensures LoadState(Some(DumpState(o))).epoch == o.epoch && LoadState(Some(DumpState(o))).ranks == o.ranks
  {
    var r := LoadState(Some(DumpState(o)));
    assert r.ranks == o.ranks;
    assert r.hashes == map u | u in o.hashes && IsHash(o.hashes[u]) :: o.hashes[u];
    if r == o {
      forall u | u in o.hashes ensures IsHash(o.hashes[u]) {
        assert u in r.hashes;
      }
    } else {
      assert r.hashes != o.hashes;
    }
  }

  function Column(epoch: int, ranks: map<string, Field>, hashes: map<string, Field>): Option<Field> {
    Some(Map(map["epoch" := Int(epoch), "ranks" := Map(ranks), "hashes" := Map(hashes)]))
  }

  lemma ColumnReads(epoch: int, ranks: map<string, Field>, hashes: map<string, Field>)
    ensures LoadState(Column(epoch, ranks, hashes)) == Order(epoch, ReadableRanks(ranks), ReadableHashes(hashes))
  {
    var entries := Column(epoch, ranks, hashes).value.entries;
    assert FieldOf(entries, "epoch") == Int(epoch);
    assert FieldOf(entries, "ranks") == Map(ranks);
    assert FieldOf(entries, "hashes") == Map(hashes);
  }

  /** A malformed rank or hash costs its own photo's entry and no other, and neither field can spoil
      the other or the epoch. */
  lemma BadEntryDropsItself(epoch: int, ranks: map<string, Field>, hashes: map<string, Field>, u: string, bad: Field)
    requires !bad.Int? && (bad.Text? ==> !IsHash(bad.s))
    ensures var o := LoadState(Column(epoch, ranks, hashes));
            && LoadState(Column(epoch, ranks[u := bad], hashes)) == o.(ranks := o.ranks - {u})
            && LoadState(Column(epoch, ranks, hashes[u := bad])) == o.(hashes := o.hashes - {u})
            && o.epoch == epoch
  {
    ColumnReads(epoch, ranks, hashes);
    ColumnReads(epoch, ranks[u := bad], hashes);
    ColumnReads(epoch, ranks, hashes[u := bad]);
    assert ReadableRanks(ranks[u := bad]) == ReadableRanks(ranks) - {u};
    assert ReadableHashes(hashes[u := bad]) == ReadableHashes(hashes) - {u};
  }

  /** A content hash is 64 characters of the lower-case hexadecimal alphabet. */
  lemma HashAlphabet(h: string)
    ensures IsHash(h) <==> |h| == 64 && forall i :: 0 <= i < |h| ==> h[i] in "0123456789abcdef"
  {
    if |h| == 64 {
      forall i | 0 <= i < |h| ensures ('0' <= h[i] <= '9' || 'a' <= h[i] <= 'f') <==> h[i] in "0123456789abcdef" {
        HexDigit(h[i]);
      }
    }
  }

  lemma HexDigit(c: char)
    ensures ('0' <= c <= '9' || 'a' <= c <= 'f') <==> c in "0123456789abcdef"
  {
    var digits := "0123456789abcdef";
    if '0' <= c <= '9' { assert digits[c as int - '0' as int] == c; }
    if 'a' <= c <= 'f' { assert digits[10 + c as int - 'a' as int] == c; }
  }

  /** The column as `dump_state` wrote it, with its ranks and hashes overwritten. */
  function Tampered(o: Order, ranks: Field, hashes: Field): Field {
    Map(DumpState(o).entries["ranks" := ranks]["hashes" := hashes])
  }

  lemma EpochSurvives(o: Order, ranks: Field, hashes: Field)
    ensures LoadState(Some(Tampered(o, ranks, hashes))).epoch == o.epoch
  {
    assert FieldOf(Tampered(o, ranks, hashes).entries, "epoch") == Int(o.epoch);
  }

  // ------------------------------------------------- what every operation keeps

  /** Ranked photos first in rank order, unranked ones after them, nothing listed twice. */
  ghost predicate Orderly(l: Listing) {
    Sorted(RankLeq, View(l)) && Distinct(l.photos)
  }

  lemma OrderlyShape(l: Listing) returns (cut: nat)
    requires Orderly(l)
    ensures cut <= |l.photos|
    ensures forall i :: 0 <= i < cut ==> l.photos[i] in l.order.ranks
    ensures forall i :: cut <= i < |l.photos| ==> l.photos[i] !in l.order.ranks
    ensures forall i, j :: 0 <= i < j < cut ==> l.order.ranks[l.photos[i]] <= l.order.ranks[l.photos[j]]
  {
    var v := View(l);
    cut := 0;
    while cut < |l.photos| && l.photos[cut] in l.order.ranks
      invariant cut <= |l.photos|
      invariant forall i :: 0 <= i < cut ==> l.photos[i] in l.order.ranks
    {
      cut := cut + 1;
    }
    forall i | cut <= i < |l.photos| ensures l.photos[i] !in l.order.ranks {
      if i > cut { assert RankLeq(v[cut].0, v[i].0); }
    }
    forall i, j | 0 <= i < j < cut ensures l.order.ranks[l.photos[i]] <= l.order.ranks[l.photos[j]] {
      assert RankLeq(v[i].0, v[j].0);
    }
  }

  /** Placing is a stable insertion of (rank, photo) into the viewed list. */
  lemma PlacedView(l: Listing, a: Arrival)
    requires a.uuid !in l.photos
    ensures View(Placed(l, a).value) == Insert(RankLeq, View(l), (a.rank, a.uuid))
  {
    var r := Placed(l, a).value;
    var at := InsertionPoint(RankLeq, View(l), a.rank);
    var want := Insert(RankLeq, View(l), (a.rank, a.uuid));
    forall i | 0 <= i < |r.photos| ensures View(r)[i] == want[i] {
      if i != at {
        var k := if i < at then i else i - 1;
        assert r.photos[i] == l.photos[k] && l.photos[k] != a.uuid;
        assert want[i] == View(l)[k];
      }
    }
  }

  lemma PlacedKeepsOrderly(l: Listing, a: Arrival)
    requires Orderly(l) && a.uuid !in l.photos
    ensures Orderly(Placed(l, a).value)
  {
    RankLeqTotal();
    PlacedView(l, a);
    InsertSorted(RankLeq, View(l), (a.rank, a.uuid));
  }

  /** The kept photos are the old ones in their old order: `at` gives each one's old index. */
  ghost predicate SubsequenceAt(r: seq<Uuid>, s: seq<Uuid>, at: seq<nat>) {
    && |at| == |r|
    && (forall i :: 0 <= i < |at| ==> at[i] < |s| && r[i] == s[at[i]])
    && (forall i, j :: 0 <= i < j < |at| ==> at[i] < at[j])
  }

  lemma SubsequenceShift(r: seq<Uuid>, s: seq<Uuid>, at: seq<nat>, head: bool) returns (at': seq<nat>)
    requires s != [] && SubsequenceAt(r, s[1..], at)
    ensures SubsequenceAt((if head then [s[0]] else []) + r, s, at')
  {
    var shifted: seq<nat> := seq(|at|, i requires 0 <= i < |at| => at[i] + 1);
    at' := if head then [0] + shifted else shifted;
    var r' := (if head then [s[0]] else []) + r;
    var d := if head then 1 else 0;
    forall i | 0 <= i < |at'| ensures at'[i] < |s| && r'[i] == s[at'[i]] {
      if i >= d { assert r'[i] == r[i - d] && at'[i] == at[i - d] + 1; }
    }
    forall i, j | 0 <= i < j < |at'| ensures at'[i] < at'[j] {
      if i >= d { assert at[i - d] < at[j - d]; }
    }
  }

  lemma {:induction false} WithoutIsSubsequence(s: seq<Uuid>, u: Uuid) returns (at: seq<nat>)
    ensures SubsequenceAt(Without(s, u), s, at)
  {
    if s == [] {
      at := [];
    } else {
      var rest := WithoutIsSubsequence(s[1..], u);
      at := SubsequenceShift(Without(s[1..], u), s, rest, s[0] != u);
    }
  }

  lemma RemovedKeepsOrderly(l: Listing, u: Uuid)
    requires Orderly(l)
    ensures Orderly(Removed(l, u)) && u !in Removed(l, u).photos
  {
    var r := Removed(l, u);
    var at := WithoutIsSubsequence(l.photos, u);
    forall i, j | 0 <= i < j < |r.photos|
      ensures r.photos[i] != r.photos[j] && RankLeq(View(r)[i].0, View(r)[j].0)
    {
      assert r.photos[i] in r.photos && r.photos[j] in r.photos;
      assert View(r)[i] == View(l)[at[i]] && View(r)[j] == View(l)[at[j]];
    }
  }

  /** A view without the photo `u`. */
  function ViewWithout(v: seq<(Option<int>, Uuid)>, u: Uuid): seq<(Option<int>, Uuid)> {
    if v == [] then [] else (if v[0].1 != u then [v[0]] else []) + ViewWithout(v[1..], u)
  }

  /** Removing a photo leaves the others in their order and with their ranks. */
  lemma {:induction false} RemovedView(l: Listing, u: Uuid)
    ensures View(Removed(l, u)) == ViewWithout(View(l), u)
    decreases |l.photos|
  {
    if l.photos != [] {
      var rest := Listing(l.photos[1..], l.order);
      RemovedView(rest, u);
      assert View(l)[1..] == View(rest);
      assert View(l) == [View(l)[0]] + View(rest);
      assert View(Removed(l, u)) == (if l.photos[0] != u then [View(l)[0]] else []) + View(Removed(rest, u));
    } else {
      assert Removed(l, u).photos == [];
    }
  }

  /** Replacing keeps the place and the rank; it keeps the list free of duplicates
      exactly when the new id is not already listed elsewhere. */
  lemma ReplacedKeepsOrderly(l: Listing, oldId: Uuid, newId: Uuid)
    requires Orderly(l) && oldId in l.photos
    ensures Orderly(Replaced(l, oldId, newId).value) <==> newId == oldId || newId !in l.photos
    ensures newId == oldId || newId !in l.photos ==>
              var at := IndexOf(l.photos, oldId);
              View(Replaced(l, oldId, newId).value) == View(l)[at := (View(l)[at].0, newId)]
  {
    var at := IndexOf(l.photos, oldId);
    var r := Replaced(l, oldId, newId).value;
    if newId == oldId || newId !in l.photos {
      var want := View(l)[at := (View(l)[at].0, newId)];
      forall i | 0 <= i < |r.photos| ensures View(r)[i] == want[i] {
        if i != at { assert l.photos[i] != oldId && l.photos[i] != newId; }
      }
      assert View(r) == want;
      forall i, j | 0 <= i < j < |r.photos| ensures RankLeq(View(r)[i].0, View(r)[j].0) {
        assert RankLeq(View(l)[i].0, View(l)[j].0);
      }
    } else {
      var other :| 0 <= other < |l.photos| && l.photos[other] == newId;
      assert r.photos[other] == r.photos[at];
    }
  }

  // ------------------------------------------------- which content a list holds

  lemma HasHashMeans(l: Listing, h: string)
    ensures HasHash(l, h) <==> IsHash(h) && exists u :: u in l.photos && Get(l.order.hashes, u) == Some(h)
  {
    if IsHash(h) && exists u :: u in l.photos && Get(l.order.hashes, u) == Some(h) {
      var u :| u in l.photos && Get(l.order.hashes, u) == Some(h);
      var i :| 0 <= i < |l.photos| && l.photos[i] == u;
      assert Get(l.order.hashes, l.photos[i]) == Some(h);
    }
  }

  /** A placed download is found by its hash from then on, and nothing else changes. */
  lemma PlacedHashes(l: Listing, a: Arrival, h: string)
    requires a.uuid !in l.photos
    ensures HasHash(Placed(l, a).value, h) <==> HasHash(l, h) || (IsHash(h) && a.contentHash == Some(h))
  {
    var r := Placed(l, a).value;
    HasHashMeans(l, h);
    HasHashMeans(r, h);
    assert forall u :: u in r.photos <==> u == a.uuid || u in l.photos;
    assert forall u :: u in l.photos ==> Get(r.order.hashes, u) == Get(l.order.hashes, u);
  }

  /** A replaced photo still counts as present, so a re-import does not bring it back. */
  lemma ReplacedHashes(l: Listing, oldId: Uuid, newId: Uuid, h: string)
    requires Distinct(l.photos) && oldId in l.photos && newId !in l.photos
    ensures HasHash(Replaced(l, oldId, newId).value, h) <==> HasHash(l, h)
  {
    var r := Replaced(l, oldId, newId).value;
    var at := IndexOf(l.photos, oldId);
    forall i | 0 <= i < |l.photos|
      ensures Get(r.order.hashes, r.photos[i]) == Get(l.order.hashes, l.photos[i])
    {
      if i != at { assert l.photos[i] != oldId && l.photos[i] != newId && r.photos[i] == l.photos[i]; }
    }
  }

  /** A removed photo's content may be downloaded again, unless another photo carries it. */
  lemma RemovedHashes(l: Listing, u: Uuid, h: string)
    ensures HasHash(Removed(l, u), h)
       <==> IsHash(h) && exists v :: v in l.photos && v != u && Get(l.order.hashes, v) == Some(h)
  {
    HasHashMeans(Removed(l, u), h);
    assert forall v :: v != u ==> Get(Removed(l, u).order.hashes, v) == Get(l.order.hashes, v);
  }

  // -------------------------------------------------------------- confluence

  function Names(arrivals: seq<Arrival>): (s: seq<Uuid>)
    ensures |s| == |arrivals| && forall i :: 0 <= i < |s| ==> s[i] == arrivals[i].uuid
  {
    seq(|arrivals|, i requires 0 <= i < |arrivals| => arrivals[i].uuid)
  }

  function Keyed(arrivals: seq<Arrival>): (s: seq<(Option<int>, Uuid)>)
    ensures |s| == |arrivals|
    ensures forall i :: 0 <= i < |s| ==> s[i] == (arrivals[i].rank, arrivals[i].uuid)
  {
    seq(|arrivals|, i requires 0 <= i < |arrivals| => (arrivals[i].rank, arrivals[i].uuid))
  }

  /** Arrivals the callers may place: freshly generated ids, none of them listed yet. */
  ghost predicate Fresh(l: Listing, arrivals: seq<Arrival>) {
    Distinct(Names(arrivals)) && forall a :: a in arrivals ==> a.uuid !in l.photos
  }

  function PlaceAll(l: Listing, arrivals: seq<Arrival>): Listing
    decreases |arrivals|
  {
    if arrivals == [] then l
    else match Placed(l, arrivals[0])
      case Some(next) => PlaceAll(next, arrivals[1..])
      case None => PlaceAll(l, arrivals[1..])
  }

  lemma FreshRest(l: Listing, arrivals: seq<Arrival>)
    requires arrivals != [] && Fresh(l, arrivals)
    ensures arrivals[0].uuid !in l.photos && Fresh(Placed(l, arrivals[0]).value, arrivals[1..])
  {
    var a, rest := arrivals[0], arrivals[1..];
    assert a in arrivals;
    var next := Placed(l, a).value;
    forall b | b in rest ensures b.uuid !in next.photos {
      var j :| 0 <= j < |rest| && rest[j] == b;
      assert Names(arrivals)[j + 1] == b.uuid && Names(arrivals)[0] == a.uuid;
      assert arrivals[j + 1] in arrivals;
    }
    forall i, j | 0 <= i < j < |rest| ensures Names(rest)[i] != Names(rest)[j] {
      assert Names(arrivals)[i + 1] != Names(arrivals)[j + 1];
    }
  }

  lemma {:induction false} PlaceAllView(l: Listing, arrivals: seq<Arrival>)
    requires Fresh(l, arrivals)
    ensures View(PlaceAll(l, arrivals)) == InsertAll(RankLeq, View(l), Keyed(arrivals))
    decreases |arrivals|
  {
    if arrivals != [] {
      FreshRest(l, arrivals);
      PlacedView(l, arrivals[0]);
      assert Keyed(arrivals)[1..] == Keyed(arrivals[1..]);
      PlaceAllView(Placed(l, arrivals[0]).value, arrivals[1..]);
    }
  }

  /** Any arrivals on top of an orderly list: sorted by rank, unranked last, and for every
      rank (and for "no rank") the photos already there come first, then the new ones in
      the order they arrived. */
  lemma PlaceAllIsStable(l: Listing, arrivals: seq<Arrival>, rank: Option<int>)
    requires Fresh(l, arrivals) && Sorted(RankLeq, View(l))
    ensures Sorted(RankLeq, View(PlaceAll(l, arrivals)))
    ensures WithKey(View(PlaceAll(l, arrivals)), rank) == WithKey(View(l), rank) + WithKey(Keyed(arrivals), rank)
  {
    RankLeqTotal();
    PlaceAllView(l, arrivals);
    InsertAllIsStable(RankLeq, View(l), Keyed(arrivals), rank);
  }

  /** Two arrival orders lead to the same list exactly when they agree, rank by rank, on
      the order of arrival inside that rank: the interleaving of different ranks never shows. */
  lemma PlacementConfluent(l: Listing, a: seq<Arrival>, b: seq<Arrival>)
    requires Sorted(RankLeq, View(l)) && Fresh(l, a) && Fresh(l, b)
    ensures View(PlaceAll(l, a)) == View(PlaceAll(l, b))
       <==> forall rank :: WithKey(Keyed(a), rank) == WithKey(Keyed(b), rank)
  {
    RankLeqTotal();
    PlaceAllView(l, a);
    PlaceAllView(l, b);
    InsertAllConfluent(RankLeq, View(l), Keyed(a), Keyed(b));
  }

  ghost predicate DistinctRanks(arrivals: seq<Arrival>) {
    forall i, j :: 0 <= i < j < |arrivals| && arrivals[i].rank.Some? ==> arrivals[i].rank != arrivals[j].rank
  }

  /** The import case: downloads with pairwise distinct ranks may finish in any order; as
      long as the uploads among them keep theirs, the list comes out the same. */
  lemma DistinctRanksConfluent(l: Listing, a: seq<Arrival>, b: seq<Arrival>)
    requires Sorted(RankLeq, View(l)) && Fresh(l, a) && Fresh(l, b)
    requires DistinctRanks(a) && DistinctRanks(b)
    requires forall x :: x in a <==> x in b
    requires WithKey(Keyed(a), None) == WithKey(Keyed(b), None)
    ensures PlaceAll(l, a).photos == PlaceAll(l, b).photos
  {
    forall rank ensures WithKey(Keyed(a), rank) == WithKey(Keyed(b), rank) {
      if rank.Some? {
        SoleOfItsRank(a, rank);
        SoleOfItsRank(b, rank);
      }
    }
    PlacementConfluent(l, a, b);
    forall i | 0 <= i < |PlaceAll(l, a).photos| ensures PlaceAll(l, a).photos[i] == PlaceAll(l, b).photos[i] {
      assert View(PlaceAll(l, a))[i] == View(PlaceAll(l, b))[i];
    }
  }

  /** A rank held once selects the single arrival that holds it. */
  lemma {:induction false} SoleOfItsRank(arrivals: seq<Arrival>, rank: Option<int>)
    requires rank.Some? && DistinctRanks(arrivals)
    ensures forall x :: x in arrivals && x.rank == rank ==> WithKey(Keyed(arrivals), rank) == [(rank, x.uuid)]
    ensures (forall x :: x in arrivals ==> x.rank != rank) ==> WithKey(Keyed(arrivals), rank) == []
  {
    if arrivals != [] {
      var rest := arrivals[1..];
      assert Keyed(arrivals)[1..] == Keyed(rest);
      assert forall x :: x in arrivals <==> x == arrivals[0] || x in rest;
      SoleOfItsRank(rest, rank);
      if arrivals[0].rank == rank {
        forall x | x in rest ensures x.rank != rank {
          var j :| 0 <= j < |rest| && rest[j] == x;
          assert arrivals[j + 1] == x;
        }
      }
    }
  }

  // ------------------------------------- stale rank and hash entries do not show

  datatype Op =
    | PlaceOp(arrival: Arrival)
    | RemoveOp(uuid: Uuid)
    | ReplaceOp(oldId: Uuid, newId: Uuid)
    | ClearOp

  /** One operation on a listing; a refused one changes nothing. */
  function Apply(l: Listing, op: Op): Listing {
    match op
    case PlaceOp(a) => (match Placed(l, a) case Some(r) => r case None => l)
    case RemoveOp(u) => Removed(l, u)
    case ReplaceOp(o, n) => (match Replaced(l, o, n) case Some(r) => r case None => l)
    case ClearOp => Listing([], Cleared(l.order))
  }

  function ApplyAll(l: Listing, ops: seq<Op>): Listing
    decreases |ops|
  {
    if ops == [] then l else ApplyAll(Apply(l, ops[0]), ops[1..])
  }

  /** The listing with every entry for a photo that is not listed taken out. */
  function Pruned(l: Listing): Listing {
    Listing(l.photos, Order(l.order.epoch,
                            map u | u in l.order.ranks && u in l.photos :: l.order.ranks[u],
                            map u | u in l.order.hashes && u in l.photos :: l.order.hashes[u]))
  }

  /** Same list, same epoch, and the same rank and hash for every listed photo. */
  ghost predicate LooksLike(l: Listing, m: Listing) {
    && l.photos == m.photos && l.order.epoch == m.order.epoch
    && AgreeOn(l.photos, l.order.ranks, m.order.ranks)
    && AgreeOn(l.photos, l.order.hashes, m.order.hashes)
  }

  ghost predicate AgreeOn<V>(photos: seq<Uuid>, m: map<Uuid, V>, n: map<Uuid, V>) {
    forall u :: u in photos ==> Get(m, u) == Get(n, u)
  }

  lemma SetKeepsAgreement<V>(
      photos: seq<Uuid>, photos': seq<Uuid>, m: map<Uuid, V>, n: map<Uuid, V>, u: Uuid, v: Option<V>)
    requires AgreeOn(photos, m, n) && forall x :: x in photos' ==> x == u || x in photos
    ensures AgreeOn(photos', SetOrDrop(m, u, v), SetOrDrop(n, u, v))
  {
  }

  lemma DropKeepsAgreement<V>(photos: seq<Uuid>, m: map<Uuid, V>, n: map<Uuid, V>, u: Uuid)
    requires AgreeOn(photos, m, n)
    ensures AgreeOn(photos, m - {u}, n - {u})
  {
    forall x | x in photos ensures Get(m - {u}, x) == Get(n - {u}, x) {
      assert Get(m, x) == Get(n, x);
    }
  }

  lemma LooksLikePlaced(l: Listing, m: Listing, a: Arrival)
    requires LooksLike(l, m) && a.uuid !in l.photos
    ensures LooksLike(Placed(l, a).value, Placed(m, a).value)
  {
    assert View(l) == View(m);
    var r := Placed(l, a).value;
    assert forall x :: x in r.photos ==> x == a.uuid || x in l.photos;
    SetKeepsAgreement(l.photos, r.photos, l.order.ranks, m.order.ranks, a.uuid, a.rank);
    SetKeepsAgreement(l.photos, r.photos, l.order.hashes, m.order.hashes, a.uuid, a.contentHash);
  }

  lemma LooksLikeReplaced(l: Listing, m: Listing, o: Uuid, n: Uuid)
    requires LooksLike(l, m) && o in l.photos
    ensures LooksLike(Replaced(l, o, n).value, Replaced(m, o, n).value)
  {
    var r := Replaced(l, o, n).value;
    assert forall x :: x in r.photos ==> x == n || x in l.photos;
    DropKeepsAgreement(l.photos, l.order.ranks, m.order.ranks, o);
    DropKeepsAgreement(l.photos, l.order.hashes, m.order.hashes, o);
    SetKeepsAgreement(l.photos, r.photos, l.order.ranks - {o}, m.order.ranks - {o}, n, Get(l.order.ranks, o));
    SetKeepsAgreement(l.photos, r.photos, l.order.hashes - {o}, m.order.hashes - {o}, n, Get(l.order.hashes, o));
  }

  lemma LooksLikeStep(l: Listing, m: Listing, op: Op)
    requires LooksLike(l, m)
    ensures LooksLike(Apply(l, op), Apply(m, op))
  {
    match op
    case PlaceOp(a) => if a.uuid !in l.photos { LooksLikePlaced(l, m, a); }
    case RemoveOp(u) =>
      DropKeepsAgreement(l.photos, l.order.ranks, m.order.ranks, u);
      DropKeepsAgreement(l.photos, l.order.hashes, m.order.hashes, u);
    case ReplaceOp(o, n) => if o in l.photos { LooksLikeReplaced(l, m, o, n); }
    case ClearOp =>
  }

  lemma LooksLikePruned(l: Listing, m: Listing)
    ensures LooksLike(l, m) <==> Pruned(l) == Pruned(m)
  {
    if Pruned(l) == Pruned(m) {
      assert l.photos == Pruned(l).photos == m.photos;
      forall u | u in l.photos
        ensures Get(l.order.ranks, u) == Get(m.order.ranks, u) && Get(l.order.hashes, u) == Get(m.order.hashes, u)
      {
        assert Get(l.order.ranks, u) == Get(Pruned(l).order.ranks, u);
        assert Get(m.order.ranks, u) == Get(Pruned(m).order.ranks, u);
        assert Get(l.order.hashes, u) == Get(Pruned(l).order.hashes, u);
        assert Get(m.order.hashes, u) == Get(Pruned(m).order.hashes, u);
      }
    }
  }

  /** Through any sequence of operations a listing and its pruned form show the same list,
      answer every hash question alike and prune to the same state. */
  lemma {:induction false} StaleEntriesInvisible(l: Listing, ops: seq<Op>, h: string)
    ensures ApplyAll(l, ops).photos == ApplyAll(Pruned(l), ops).photos
    ensures Pruned(ApplyAll(l, ops)) == Pruned(ApplyAll(Pruned(l), ops))
    ensures HasHash(ApplyAll(l, ops), h) <==> HasHash(ApplyAll(Pruned(l), ops), h)
  {
    LooksLikeRun(l, Pruned(l), ops);
    LooksLikePruned(ApplyAll(l, ops), ApplyAll(Pruned(l), ops));
  }

  lemma {:induction false} LooksLikeRun(l: Listing, m: Listing, ops: seq<Op>)
    requires LooksLike(l, m)
    ensures LooksLike(ApplyAll(l, ops), ApplyAll(m, ops))
    decreases |ops|
  {
    if ops != [] {
      LooksLikeStep(l, m, ops[0]);
      LooksLikeRun(Apply(l, ops[0]), Apply(m, ops[0]), ops[1..]);
    }
  }
}
