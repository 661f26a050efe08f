/**
 The chronological sort of the timeline (`sort_items` in `api/project_items.py`): a first
 pass gives every item a date string, letting undated segments inherit the date of what
 precedes them, and a stable sort by those strings follows.
 */
module ChronoSort {
  import opened Wrappers
  import opened StableOrder

  /** Coordinates at the four decimal places they are compared at. */
  type Coord = (int, int)

  /** The dated parts of an item. A missing date or time is the empty string; `Blank` is an item
      without its payload. `Entry` stands for memories, journal entries and encounters. */
  datatype Item =
    | Activity(start: Option<string>, end: Option<Coord>)
    | Entry(date: string, time: string)
    | Segment(from: Option<Coord>, day: string)
    | Blank

  const FALLBACK := "9999-12-31T23:59:59"

  // ----------------------------------------------------- strings in code-point order

  predicate LexLeq(a: string, b: string) {
    a == [] || (b != [] && (a[0] < b[0] || (a[0] == b[0] && LexLeq(a[1..], b[1..]))))
  }

  lemma {:induction false} LexTotal(a: string, b: string)
    ensures LexLeq(a, b) || LexLeq(b, a)
    ensures LexLeq(a, b) && LexLeq(b, a) ==> a == b
  {
    if a != [] && b != [] {
      LexTotal(a[1..], b[1..]);
      assert a == [a[0]] + a[1..] && b == [b[0]] + b[1..];
    }
  }

  lemma {:induction false} LexTransitive(a: string, b: string, c: string)
    requires LexLeq(a, b) && LexLeq(b, c)
    ensures LexLeq(a, c)
  {
    if a != [] && a[0] == b[0] && b[0] == c[0] {
      LexTransitive(a[1..], b[1..], c[1..]);
    }
  }

  lemma {:induction false} LexPrefix(a: string, b: string, n: nat)
    requires n <= |a| && n <= |b| && LexLeq(a, b)
    ensures LexLeq(a[..n], b[..n])
  {
    if n > 0 {
      assert a[..n][1..] == a[1..][..n - 1] && b[..n][1..] == b[1..][..n - 1];
      if a[0] == b[0] { LexPrefix(a[1..], b[1..], n - 1); }
    }
  }

  lemma {:induction false} LexExtend(a: string, b: string, u: string, v: string)
    requires |a| == |b| && LexLeq(a, b) && (a == b ==> LexLeq(u, v))
    ensures LexLeq(a + u, b + v)
  {
    if a == [] {
      assert a + u == u && b + v == v;
    } else {
      assert (a + u)[1..] == a[1..] + u && (b + v)[1..] == b[1..] + v;
      if a[0] == b[0] {
        assert a == [a[0]] + a[1..] && b == [b[0]] + b[1..];
        LexExtend(a[1..], b[1..], u, v);
      }
    }
  }

  lemma LexOrder()
    ensures TotalOrder(LexLeq)
  {
    forall a, b ensures (LexLeq(a, b) || LexLeq(b, a)) && (LexLeq(a, b) && LexLeq(b, a) ==> a == b) {
      LexTotal(a, b);
    }
    forall a, b, c | LexLeq(a, b) && LexLeq(b, c) ensures LexLeq(a, c) {
      LexTransitive(a, b, c);
    }
  }

  // ---------------------------------------------------------------- the first pass

  /** The end of an activity takes its start date; other items add nothing. */
  function WithEnd(ends: map<Coord, string>, item: Item): map<Coord, string> {
    if item.Activity? && item.start.Some? && item.end.Some? then ends[item.end.value := item.start.value] else ends
  }

  /** Where activities end, with the date of the last activity ending there. */
  function EndDates(items: seq<Item>): map<Coord, string> {
    if items == [] then map[] else WithEnd(EndDates(items[..|items| - 1]), items[|items| - 1])
  }

  function Matched(ends: map<Coord, string>, item: Item): string {
    if item.Segment? && item.from.Some? && item.from.value in ends then ends[item.from.value] else ""
  }

  function DayPart(date: string): string {
    if |date| >= 10 then date[..10] else date
  }

  /** The key of a segment that is dated on a day of its own. */
  function DayStart(day: string): string {
    day + "T00:00:01"
  }

  /** The key of one item, given the last date before it. */
  function KeyOf(ends: map<Coord, string>, item: Item, last: string): string {
    match item
    case Activity(start, _) => if start.Some? then start.value else FALLBACK
    case Entry(date, time) => if date != "" then date + "T" + (if time != "" then time else "00:00") else FALLBACK
    case Segment(_, day) =>
      var matched := Matched(ends, item);
      if matched != "" && matched != FALLBACK then matched
      else if day != "" then
        if last != FALLBACK && DayPart(last) == day then last else DayStart(day)
      else last
    case Blank => FALLBACK
  }

  function Rule(ends: map<Coord, string>): (Item, string) -> string {
    (item, last) => KeyOf(ends, item, last)
  }

  /** The last date seen before item `i`, when `rule` gives an item's key from the date before it. */
  function LastDate(items: seq<Item>, rule: (Item, string) -> string, i: nat): string
    requires i <= |items|
  {
    if i == 0 then FALLBACK
    else
      var last := LastDate(items, rule, i - 1);
      var key := rule(items[i - 1], last);
      if key != FALLBACK then key else last
  }

  function KeyBy(items: seq<Item>, rule: (Item, string) -> string, i: nat): string
    requires i < |items|
  {
    rule(items[i], LastDate(items, rule, i))
  }

  function Key(items: seq<Item>, i: nat): string
    requires i < |items|
  {
    KeyBy(items, Rule(EndDates(items)), i)
  }

  /** The first loop: where activities end. */
  method CollectEnds(items: seq<Item>) returns (ends: map<Coord, string>)
    ensures ends == EndDates(items)
  {
    ends := map[];
    for i := 0 to |items|
      invariant ends == EndDates(items[..i])
    {
      var item := items[i];
      OneMoreEnd(items[..i], item);
      assert items[..i + 1] == items[..i] + [item];
      if item.Activity? && item.start.Some? && item.end.Some? {
        ends := ends[item.end.value := item.start.value];
      }
    }
    assert items[..|items|] == items;
  }

  lemma OneMoreEnd(items: seq<Item>, item: Item)
    ensures EndDates(items + [item]) == WithEnd(EndDates(items), item)
  {
    assert (items + [item])[..|items|] == items;
  }

  /** The second loop: a key per item, carrying the last date. */
  method AssignKeys(items: seq<Item>) returns (keys: seq<string>)
    ensures |keys| == |items| && forall i :: 0 <= i < |items| ==> keys[i] == Key(items, i)
  {
    var ends := CollectEnds(items);
    ghost var rule := Rule(ends);
    keys := [];
    var last := FALLBACK;
    for i := 0 to |items|
      invariant |keys| == i && last == LastDate(items, rule, i)
      invariant forall j :: 0 <= j < i ==> keys[j] == KeyBy(items, rule, j)
    {
      var key := KeyOf(ends, items[i], last);
      assert key == rule(items[i], last);
      LastDateNext(items, rule, i);
      if key != FALLBACK {
        last := key;
      }
      keys := keys + [key];
    }
  }

  lemma LastDateNext(items: seq<Item>, rule: (Item, string) -> string, i: nat)
    requires i < |items|
    ensures LastDate(items, rule, i + 1)
         == if KeyBy(items, rule, i) != FALLBACK then KeyBy(items, rule, i) else LastDate(items, rule, i)
  {
  }

  // ---------------------------------------------------------------------- the sort

  /** Each index with its key, in list order. */
  function Keyed(items: seq<Item>): (s: seq<(string, int)>)
    ensures |s| == |items| && forall i :: 0 <= i < |s| ==> s[i] == (Key(items, i), i)
  {
    seq(|items|, i requires 0 <= i < |items| => (Key(items, i), i))
  }

  /** The stable sort of the keyed indices. */
  function Ordered(items: seq<Item>): seq<(string, int)> {
    InsertAll(LexLeq, [], Keyed(items))
  }

  /** Sorted by key, every item once, and items with equal keys in their old order. */
  lemma SortIsStable(items: seq<Item>)
    ensures Sorted(LexLeq, Ordered(items))
    ensures multiset(Ordered(items)) == multiset(Keyed(items))
    ensures forall i, j :: 0 <= i < j < |items| && LexLeq(Key(items, i), Key(items, j)) ==>
              Before(Ordered(items), Keyed(items)[i], Keyed(items)[j])
  {
    LexOrder();
    InsertAllMembers(LexLeq, [], Keyed(items));
    InsertAllIsStable(LexLeq, [], Keyed(items), FALLBACK);
    forall i, j | 0 <= i < j < |items| && LexLeq(Key(items, i), Key(items, j))
      ensures Before(Ordered(items), Keyed(items)[i], Keyed(items)[j])
    {
      EarlierGoesFirst(LexLeq, [], Keyed(items), i, j);
    }
  }

  /** Any stable sort by these keys gives this order: the sorting algorithm is irrelevant. */
  lemma SortIsDetermined(items: seq<Item>, s: seq<(string, int)>)
    requires Sorted(LexLeq, s) && forall k :: WithKey(s, k) == WithKey(Keyed(items), k)
    ensures s == Ordered(items)
  {
    LexOrder();
    forall k ensures WithKey(s, k) == WithKey(Ordered(items), k) {
      InsertAllIsStable(LexLeq, [], Keyed(items), k);
    }
    InsertAllIsStable(LexLeq, [], Keyed(items), FALLBACK);
    StableOrderUnique(LexLeq, s, Ordered(items));
  }

  /** `p` is the nearest item before `i` that got a date. */
  ghost predicate DatedPredecessor(items: seq<Item>, p: int, i: int) {
    && 0 <= p < i < |items| && Key(items, p) != FALLBACK
    && forall m :: p < m < i ==> Key(items, m) == FALLBACK
  }

  lemma {:induction false} LastDateIsPredecessors(items: seq<Item>, rule: (Item, string) -> string, p: nat, i: nat)
    requires p < i <= |items| && KeyBy(items, rule, p) != FALLBACK
    requires forall m :: p < m < i ==> KeyBy(items, rule, m) == FALLBACK
    ensures LastDate(items, rule, i) == KeyBy(items, rule, p)
    decreases i
  {
    LastDateNext(items, rule, i - 1);
    if p < i - 1 {
      LastDateIsPredecessors(items, rule, p, i - 1);
      assert KeyBy(items, rule, i - 1) == FALLBACK;
    }
  }

  /** A segment that matches no activity's end, and is undated or dated on the day before it. */
  predicate Follows(items: seq<Item>, p: int, i: int)
    requires 0 <= p < |items| && 0 <= i < |items|
  {
    items[i].Segment? && Matched(EndDates(items), items[i]) in {"", FALLBACK}
    && (items[i].day == "" || items[i].day == DayPart(Key(items, p)))
  }

  lemma InheritsDate(items: seq<Item>, p: int, i: int)
    requires DatedPredecessor(items, p, i) && Follows(items, p, i)
    ensures Key(items, i) == Key(items, p)
  {
    var rule := Rule(EndDates(items));
    forall m | p < m < i ensures KeyBy(items, rule, m) == FALLBACK {
      assert Key(items, m) == FALLBACK;
    }
    LastDateIsPredecessors(items, rule, p, i);
  }

  /** Such a segment stays with what preceded it: after the sort it comes after its dated
      predecessor, with only items of the same key between. */
  lemma SegmentStaysClose(items: seq<Item>, p: int, i: int)
    requires DatedPredecessor(items, p, i) && Follows(items, p, i)
    ensures Key(items, i) == Key(items, p)
    ensures BeforeWithin(Ordered(items), (Key(items, p), p), (Key(items, i), i))
  {
    InheritsDate(items, p, i);
    EqualKeysStay(items, p, i);
  }

  lemma EqualKeysStay(items: seq<Item>, i: nat, j: nat)
    requires i < j < |items| && Key(items, i) == Key(items, j)
    ensures BeforeWithin(Ordered(items), (Key(items, i), i), (Key(items, j), j))
    ensures !Before(Ordered(items), (Key(items, j), j), (Key(items, i), i))
  {
    LexTotal(Key(items, i), Key(items, j));
    SortIsStable(items);
    LexOrder();
    SortedClosesUp(LexLeq, Ordered(items), Keyed(items)[i], Keyed(items)[j]);
    OccursOnce(items, i);
    OccursOnce(items, j);
    BeforeOneSided(Ordered(items), Keyed(items)[i], Keyed(items)[j]);
  }

  lemma OccursOnce(items: seq<Item>, i: nat)
    requires i < |items|
    ensures multiset(Ordered(items))[Keyed(items)[i]] == 1
  {
    InsertAllMembers(LexLeq, [], Keyed(items));
    OnceCounted(Keyed(items), i);
  }

  /** `a` is the last dated activity that ends at `c`. */
  ghost predicate LastEnding(items: seq<Item>, a: int, c: Coord) {
    && 0 <= a < |items| && items[a].Activity? && items[a].start.Some? && items[a].end == Some(c)
    && forall m :: a < m < |items| && items[m].Activity? && items[m].start.Some? ==> items[m].end != Some(c)
  }

  lemma {:induction false} EndDatesLast(items: seq<Item>, a: int, c: Coord)
    requires LastEnding(items, a, c)
    ensures c in EndDates(items) && EndDates(items)[c] == items[a].start.value
  {
    var n := |items| - 1;
    assert items == items[..n] + [items[n]];
    OneMoreEnd(items[..n], items[n]);
    if a < n {
      assert LastEnding(items[..n], a, c);
      EndDatesLast(items[..n], a, c);
    }
  }

  /** A segment leaving from where an activity ended takes that activity's key and ends up next
      to it, but after it exactly when it stood after it before. */
  lemma MatchedSegmentKeepsSide(items: seq<Item>, a: int, i: int)
    requires 0 <= i < |items| && items[i].Segment? && items[i].from.Some? && LastEnding(items, a, items[i].from.value)
    requires items[a].start.value != "" && items[a].start.value != FALLBACK
    ensures Key(items, i) == Key(items, a)
    ensures BeforeWithin(Ordered(items), (Key(items, a), a), (Key(items, i), i)) <==> a < i
    ensures BeforeWithin(Ordered(items), (Key(items, i), i), (Key(items, a), a)) <==> i < a
  {
    EndDatesLast(items, a, items[i].from.value);
    if a < i { EqualKeysStay(items, a, i); } else { EqualKeysStay(items, i, a); }
  }

  /** The list after the sort. */
  ghost function SortItems(items: seq<Item>): seq<Item> {
    var s := Ordered(items);
    seq(|s|, i requires 0 <= i < |s| => if 0 <= s[i].1 < |items| then items[s[i].1] else Blank)
  }

  // ------------------------------------------------------------- what the keys mean

  /** A date and a time of the documented lengths; the time may be missing. */
  predicate Documented(item: Item) {
    item.Entry? && |item.date| == 10 && |item.time| in {0, 5}
  }

  function TimeOf(item: Item): string
    requires item.Entry?
  {
    if |item.time| == 0 then "00:00" else item.time
  }

  lemma EntryKey(ends: map<Coord, string>, item: Item, last: string)
    requires Documented(item)
    ensures KeyOf(ends, item, last) == item.date + ("T" + TimeOf(item)) && |TimeOf(item)| == 5
  {
    Assoc(item.date, "T", TimeOf(item));
  }

  /** Strings of one length in front decide, and only if they are equal what follows does. */
  lemma LexByParts(a: string, b: string, u: string, v: string)
    requires |a| == |b|
    ensures LexLeq(a + u, b + v) <==> if a == b then LexLeq(u, v) else LexLeq(a, b)
  {
    LexTotal(a, b);
    LexTotal(u, v);
    LexTotal(a + u, b + v);
    if a == b {
      if LexLeq(u, v) { LexExtend(a, b, u, v); }
      if LexLeq(v, u) { LexExtend(b, a, v, u); }
      assert a + u == b + v ==> u == v by { assert u == (a + u)[|a|..] && v == (b + v)[|b|..]; }
    } else {
      if LexLeq(a, b) { LexExtend(a, b, u, v); } else { LexExtend(b, a, v, u); }
      assert a + u != b + v by { assert a == (a + u)[..|a|] && b == (b + v)[..|b|]; }
    }
  }

  /** Entries are ordered by date, and on one date by time, a missing time counting as midnight. */
  lemma EntriesByDateAndTime(ends: map<Coord, string>, a: Item, b: Item, last: string, other: string)
    requires Documented(a) && Documented(b)
    ensures LexLeq(KeyOf(ends, a, last), KeyOf(ends, b, other))
       <==> if a.date == b.date then LexLeq(TimeOf(a), TimeOf(b)) else LexLeq(a.date, b.date)
  {
    EntryKey(ends, a, last);
    EntryKey(ends, b, other);
    LexByParts(a.date, b.date, "T" + TimeOf(a), "T" + TimeOf(b));
    LexByParts("T", "T", TimeOf(a), TimeOf(b));
  }

  /** Items without a date come after every entry up to the end of the year 9999. */
  lemma UndatedComeLast(ends: map<Coord, string>, entry: Item, other: Item, last: string)
    requires Documented(entry) && LexLeq(entry.date, "9999-12-31") && LexLeq(TimeOf(entry), "23:59")
    requires other.Blank? || (other.Activity? && other.start.None?) || (other.Entry? && other.date == "")
    ensures LexLeq(KeyOf(ends, entry, last), KeyOf(ends, other, last))
    ensures KeyOf(ends, entry, last) != KeyOf(ends, other, last)
  {
    EntryKey(ends, entry, last);
    assert FALLBACK == "9999-12-31" + ("T" + ("23:59" + ":59"));
    LexByParts(entry.date, "9999-12-31", "T" + TimeOf(entry), "T" + ("23:59" + ":59"));
    LexByParts("T", "T", TimeOf(entry), "23:59" + ":59");
    LexByParts(TimeOf(entry), "23:59", [], ":59");
    assert TimeOf(entry) + [] == TimeOf(entry);
    assert |KeyOf(ends, entry, last)| == 16 && |FALLBACK| == 19;
  }

  /** A segment that leaves from no activity's end and has a day of its own takes the date before
      it if that is on the same day. If not, it opens its day: it comes after the entries of that
      day without a time and before those after midnight. */
  lemma SegmentOpensItsDay(ends: map<Coord, string>, seg: Item, last: string, entry: Item)
    requires seg.Segment? && |seg.day| == 10 && Matched(ends, seg) == "" && Documented(entry) && entry.date == seg.day
    ensures last != FALLBACK && |last| >= 10 && last[..10] == seg.day ==> KeyOf(ends, seg, last) == last
    ensures last == FALLBACK || |last| < 10 || last[..10] != seg.day ==>
              var key := KeyOf(ends, seg, last);
              && (TimeOf(entry) == "00:00" ==> LexLeq(KeyOf(ends, entry, last), key))
              && (TimeOf(entry) != "00:00" && LexLeq("00:00", TimeOf(entry)) ==> LexLeq(key, KeyOf(ends, entry, last)))
              && KeyOf(ends, entry, last) != key
  {
    if last == FALLBACK || |last| < 10 || last[..10] != seg.day {
      EntryKey(ends, entry, last);
      var key, time := KeyOf(ends, seg, last), TimeOf(entry);
      assert key == seg.day + ("T" + ("00:00" + ":01"));
      LexByParts(seg.day, entry.date, "T" + ("00:00" + ":01"), "T" + time);
      LexByParts(entry.date, seg.day, "T" + time, "T" + ("00:00" + ":01"));
      LexByParts("T", "T", "00:00" + ":01", time);
      LexByParts("T", "T", time, "00:00" + ":01");
      LexByParts("00:00", time, ":01", []);
      LexByParts(time, "00:00", [], ":01");
      assert time + [] == time;
      assert |key| == 19 && |KeyOf(ends, entry, last)| == 16;
    }
  }
}
