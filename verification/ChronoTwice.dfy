/**
 Sorting the timeline twice (`sort_items` in `api/project_items.py`). The second pass gives
 the sorted list new keys, so a second sort may move items again. This module says exactly
 when it does not.
 */
module ChronoTwice {
  import opened Wrappers
  import opened StableOrder
  import opened ChronoSort

  // ------------------------------------------------------------- the sorted list

  /** Entry m of the order is an index of the list with its key; the sorted list holds that item. */
  lemma OrderedAt(x: seq<Item>, m: int)
    requires 0 <= m < |x| || 0 <= m < |Ordered(x)|
    ensures |Ordered(x)| == |x| == |SortItems(x)|
    ensures var i := Ordered(x)[m].1;
            0 <= i < |x| && Ordered(x)[m].0 == Key(x, i) && SortItems(x)[m] == x[i]
  {
    SortIsStable(x);
    var s := Ordered(x);
    assert |multiset(s)| == |s| && |multiset(Keyed(x))| == |Keyed(x)|;
    assert s[m] in multiset(s);
    assert s[m] in Keyed(x);
  }

  /** Where item i ends up. */
  lemma PlaceOf(x: seq<Item>, i: int) returns (m: int)
    requires 0 <= i < |x|
    ensures 0 <= m < |Ordered(x)| && Ordered(x)[m] == (Key(x, i), i)
  {
    SortIsStable(x);
    assert Keyed(x)[i] in multiset(Keyed(x));
    assert Keyed(x)[i] in Ordered(x);
    m :| 0 <= m < |Ordered(x)| && Ordered(x)[m] == Keyed(x)[i];
  }

  lemma OnePlace(x: seq<Item>, m: int, n: int)
    requires 0 <= m < |Ordered(x)| && 0 <= n < |Ordered(x)| && Ordered(x)[m] == Ordered(x)[n]
    ensures m == n
  {
    OrderedAt(x, m);
    OccursOnce(x, Ordered(x)[m].1);
    if m < n { TwiceCounted(Ordered(x), m, n); }
    if n < m { TwiceCounted(Ordered(x), n, m); }
  }

  lemma OrderedLeq(x: seq<Item>, m: int, n: int)
    requires 0 <= m <= n < |Ordered(x)|
    ensures LexLeq(Ordered(x)[m].0, Ordered(x)[n].0)
  {
    SortIsStable(x);
    LexTotal(Ordered(x)[m].0, Ordered(x)[m].0);
  }

  /** A list whose keys do not decrease is left as it is. */
  lemma SortedIsFixed(y: seq<Item>)
    requires Sorted(LexLeq, Keyed(y))
    ensures SortItems(y) == y
  {
    SortIsDetermined(y, Keyed(y));
  }

  /** A segment listed before the activity it leaves from stays before it. */
  lemma SegmentStaysBeforeActivity(c: Coord, d: string)
    requires d != "" && d != FALLBACK
    ensures var x := [Segment(Some(c), ""), Activity(Some(d), Some(c))];
            Key(x, 0) == Key(x, 1) == d && SortItems(x) == x
  {
    var x := [Segment(Some(c), ""), Activity(Some(d), Some(c))];
    EndDatesLast(x, 1, c);
    LexTotal(d, d);
    SortedIsFixed(x);
  }

  // ------------------------------------------------------ where activities end

  predicate Ending(item: Item, c: Coord) {
    item.Activity? && item.start.Some? && item.end == Some(c)
  }

  lemma {:induction false} FindLastEnding(x: seq<Item>, i: nat, c: Coord) returns (a: int)
    requires i < |x| && Ending(x[i], c)
    ensures LastEnding(x, a, c) && i <= a
  {
    a := i;
    var m := i + 1;
    while m < |x|
      invariant i <= a < m <= |x| && Ending(x[a], c)
      invariant forall k :: a < k < m ==> !Ending(x[k], c)
    {
      if Ending(x[m], c) { a := m; }
      m := m + 1;
    }
  }

  lemma {:induction false} EndDatesComeFrom(x: seq<Item>, c: Coord) returns (i: nat)
    requires c in EndDates(x)
    ensures i < |x| && Ending(x[i], c)
  {
    var n := |x| - 1;
    assert x == x[..n] + [x[n]];
    OneMoreEnd(x[..n], x[n]);
    if Ending(x[n], c) {
      i := n;
    } else {
      i := EndDatesComeFrom(x[..n], c);
    }
  }

  /** Some segment leaves from `c`. */
  ghost predicate LeftFrom(x: seq<Item>, c: Coord) {
    exists i :: 0 <= i < |x| && x[i].Segment? && x[i].from == Some(c)
  }

  /** At every place a segment leaves from, the last listed activity ending there is also the latest. */
  ghost predicate LastIsLatest(x: seq<Item>) {
    forall a, m, c :: LastEnding(x, a, c) && LeftFrom(x, c) && 0 <= m < |x| && Ending(x[m], c) ==>
      LexLeq(x[m].start.value, x[a].start.value)
  }

  lemma ActivityKey(x: seq<Item>, i: int, c: Coord)
    requires 0 <= i < |x| && Ending(x[i], c)
    ensures Key(x, i) == x[i].start.value
  {
  }

  lemma EndDateKept(x: seq<Item>, a: int, c: Coord)
    requires LastIsLatest(x) && LeftFrom(x, c) && LastEnding(x, a, c)
    ensures Get(EndDates(SortItems(x)), c) == Some(x[a].start.value)
  {
    var y := SortItems(x);
    var m := PlaceOf(x, a);
    OrderedAt(x, m);
    var b := FindLastEnding(y, m, c);
    OrderedAt(x, b);
    var j := Ordered(x)[b].1;
    OrderedLeq(x, m, b);
    ActivityKey(x, a, c);
    ActivityKey(x, j, c);
    LexTotal(x[j].start.value, x[a].start.value);
    EndDatesLast(y, b, c);
  }

  /** Then the sort does not change which date such a place stands for. */
  lemma EndDatesKept(x: seq<Item>, c: Coord)
    requires LastIsLatest(x) && LeftFrom(x, c)
    ensures Get(EndDates(SortItems(x)), c) == Get(EndDates(x), c)
  {
    var y := SortItems(x);
    if c in EndDates(x) {
      var i := EndDatesComeFrom(x, c);
      var a := FindLastEnding(x, i, c);
      EndDateKept(x, a, c);
      EndDatesLast(x, a, c);
    } else if c in EndDates(y) {
      var m := EndDatesComeFrom(y, c);
      OrderedAt(x, m);
      var a := FindLastEnding(x, Ordered(x)[m].1, c);
      EndDatesLast(x, a, c);
    }
  }

  // --------------------------------------------------------- the keys, recomputed

  /** An item whose key does not depend on what precedes it. */
  predicate Free(ends: map<Coord, string>, item: Item) {
    !item.Segment? || Matched(ends, item) !in {"", FALLBACK}
  }

  lemma FreeKey(ends: map<Coord, string>, item: Item, last: string, other: string)
    requires Free(ends, item)
    ensures KeyOf(ends, item, last) == KeyOf(ends, item, other)
    ensures item.Segment? ==> KeyOf(ends, item, last) != FALLBACK
  {
  }

  lemma SegmentKey(ends: map<Coord, string>, item: Item, last: string)
    requires !Free(ends, item)
    ensures KeyOf(ends, item, last)
         == if item.day == "" then last
            else if last != FALLBACK && DayPart(last) == item.day then last else DayStart(item.day)
  {
  }

  /** The rules of both passes agree on the items of the sorted list. */
  lemma RulesAgree(x: seq<Item>, m: int, last: string)
    requires LastIsLatest(x) && 0 <= m < |SortItems(x)|
    ensures KeyOf(EndDates(SortItems(x)), SortItems(x)[m], last) == KeyOf(EndDates(x), SortItems(x)[m], last)
  {
    OrderedLength(x);
    OrderedAt(x, m);
    var item := SortItems(x)[m];
    if item.Segment? && item.from.Some? {
      assert LeftFrom(x, item.from.value);
      EndDatesKept(x, item.from.value);
    }
  }

  lemma {:induction false} LastDateAgrees(
      y: seq<Item>, r: (Item, string) -> string, q: (Item, string) -> string, i: nat)
    requires i <= |y| && forall m, last :: 0 <= m < |y| ==> r(y[m], last) == q(y[m], last)
    ensures LastDate(y, r, i) == LastDate(y, q, i)
    decreases i
  {
    if i > 0 {
      LastDateAgrees(y, r, q, i - 1);
      assert r(y[i - 1], LastDate(y, r, i - 1)) == q(y[i - 1], LastDate(y, r, i - 1));
    }
  }

  lemma OrderedLength(x: seq<Item>)
    ensures |Ordered(x)| == |x| == |SortItems(x)|
  {
    SortIsStable(x);
    assert |multiset(Ordered(x))| == |Ordered(x)| && |multiset(Keyed(x))| == |Keyed(x)|;
  }

  /** What the second pass makes of item m of the sorted list, given the date before it. */
  lemma Rekeyed(x: seq<Item>, m: int)
    requires LastIsLatest(x) && 0 <= m < |x|
    ensures var y := SortItems(x);
            var rule := Rule(EndDates(x));
            && |y| == |Ordered(x)| == |x| && 0 <= Ordered(x)[m].1 < |x| && y[m] == x[Ordered(x)[m].1]
            && Key(y, m) == KeyOf(EndDates(x), y[m], LastDate(y, rule, m))
            && Ordered(x)[m].0 == KeyOf(EndDates(x), y[m], LastDate(x, rule, Ordered(x)[m].1))
            && LastDate(y, rule, m + 1) == if Key(y, m) != FALLBACK then Key(y, m) else LastDate(y, rule, m)
  {
    OrderedAt(x, m);
    var y, rule, again := SortItems(x), Rule(EndDates(x)), Rule(EndDates(SortItems(x)));
    forall n, last | 0 <= n < |y| ensures again(y[n], last) == rule(y[n], last) {
      RulesAgree(x, n, last);
    }
    LastDateAgrees(y, again, rule, m);
    LastDateNext(y, rule, m);
  }

  // ----------------------------------------------------------------- days and keys

  lemma DayStartNotFallback(day: string)
    ensures DayStart(day) != FALLBACK
  {
    assert DayStart(day)[|DayStart(day)| - 1] == '1' && FALLBACK[|FALLBACK| - 1] == '9';
  }

  lemma DayPartOfStart(day: string)
    requires |day| == 10
    ensures DayPart(DayStart(day)) == day
  {
    assert DayStart(day)[..10] == day;
  }

  /** The day of a date not past the fallback starts no later than the fallback. */
  lemma DayStartsBelow(date: string, top: string)
    requires |DayPart(date)| == 10 && LexLeq(date, top) && |top| >= 10 && LexLeq("T00:00:01", top[10..])
    ensures LexLeq(DayStart(DayPart(date)), top)
  {
    LexPrefix(date, top, 10);
    LexExtend(date[..10], top[..10], "T00:00:01", top[10..]);
    assert top == top[..10] + top[10..];
  }

  lemma FallbackIsLate()
    ensures |FALLBACK| >= 10 && LexLeq("T00:00:01", FALLBACK[10..])
  {
    var late := FALLBACK[10..];
    assert late[0] == 'T' && late[1..][0] == '2' && "T00:00:01"[1..][0] == '0';
  }

  ghost predicate LongKeys(x: seq<Item>) {
    forall i :: 0 <= i < |x| ==> |Key(x, i)| >= 10
  }

  /** A segment's day is absent or of the documented length, unless every key is that long. */
  ghost predicate Regular(x: seq<Item>) {
    && LastIsLatest(x)
    && (forall i :: 0 <= i < |x| && x[i].Segment? ==> x[i].day == "" || |x[i].day| == 10 || LongKeys(x))
  }

  /** Activities and entries are dated in the documented forms, or longer. */
  ghost predicate LongDates(x: seq<Item>) {
    forall i :: 0 <= i < |x| ==>
      && (x[i].Activity? && x[i].start.Some? ==> |x[i].start.value| >= 10)
      && (x[i].Entry? && x[i].date != "" ==> |x[i].date| >= 10)
  }

  lemma {:induction false} LongKey(x: seq<Item>, i: nat)
    requires LongDates(x) && i < |x|
    ensures |Key(x, i)| >= 10 && |LastDate(x, Rule(EndDates(x)), i)| >= 10
  {
    if i > 0 { LongKey(x, i - 1); }
    var item := x[i];
    if item.Segment? && item.from.Some? && item.from.value in EndDates(x) {
      var m := EndDatesComeFrom(x, item.from.value);
      var a := FindLastEnding(x, m, item.from.value);
      EndDatesLast(x, a, item.from.value);
    }
  }

  /** Then no condition on the days of segments is left. */
  lemma LongDatesRegular(x: seq<Item>)
    requires LongDates(x) && LastIsLatest(x)
    ensures Regular(x)
  {
    forall i | 0 <= i < |x| ensures |Key(x, i)| >= 10 {
      LongKey(x, i);
    }
  }

  // ------------------------------------------------------- the second pass, item by item

  lemma {:induction false} FindPredecessor(x: seq<Item>, rule: (Item, string) -> string, i: nat) returns (p: nat)
    requires i <= |x| && LastDate(x, rule, i) != FALLBACK
    ensures p < i && KeyBy(x, rule, p) == LastDate(x, rule, i)
    decreases i
  {
    LastDateNext(x, rule, i - 1);
    p := i - 1;
    if KeyBy(x, rule, i - 1) == FALLBACK {
      p := FindPredecessor(x, rule, i - 1);
    }
  }

  /** An item that took its key from what preceded it still has that key just before it. */
  lemma InheritorFollows(x: seq<Item>, m: int)
    requires 0 <= m < |Ordered(x)| && Ordered(x)[m].0 != FALLBACK
    requires var i := Ordered(x)[m].1;
             0 <= i < |x| && Ordered(x)[m].0 == LastDate(x, Rule(EndDates(x)), i)
    ensures m > 0 && Ordered(x)[m - 1].0 == Ordered(x)[m].0
  {
    OrderedAt(x, m);
    var s, i := Ordered(x), Ordered(x)[m].1;
    var p := FindPredecessor(x, Rule(EndDates(x)), i);
    EqualKeysStay(x, p, i);
    var a, b :| 0 <= a < b < |s| && s[a] == (Key(x, p), p) && s[b] == (Key(x, i), i)
                && forall n :: a <= n <= b ==> s[n].0 == Key(x, i);
    OnePlace(x, b, m);
  }

  /** What the second pass does to item m, whose first key was `k`: the new key and the date
      carried on are not later than `k`; a dated item stays dated, on the same day, on the same
      side of the fallback and not before the date carried so far; an undated item stays undated,
      or takes that date if it is a segment. */
  ghost predicate RekeyedWell(x: seq<Item>, m: int)
    requires 0 <= m < |x| == |Ordered(x)| == |SortItems(x)|
  {
    var y, k, rule := SortItems(x), Ordered(x)[m].0, Rule(EndDates(x));
    var key, before, after := Key(y, m), LastDate(y, rule, m), LastDate(y, rule, m + 1);
    && LexLeq(key, k) && LexLeq(after, k) && (LongKeys(x) ==> |after| >= 10)
    && if k == FALLBACK then key == (if y[m].Segment? then before else FALLBACK) && after == before
       else
         && key != FALLBACK && after == key && DayPart(key) == DayPart(k)
         && (LexLeq(key, FALLBACK) ==> LexLeq(k, FALLBACK))
         && (before != FALLBACK ==> LexLeq(before, key))
  }

  ghost predicate Reached(x: seq<Item>, m: int) {
    && Regular(x) && 0 <= m < |x| == |Ordered(x)| == |SortItems(x)|
    && (m > 0 ==> RekeyedWell(x, m - 1))
  }

  /** The date carried to item m. */
  lemma CarriedDate(x: seq<Item>, m: int)
    requires Reached(x, m)
    ensures var before := LastDate(SortItems(x), Rule(EndDates(x)), m);
            && (if m == 0 then before == FALLBACK else LexLeq(before, Ordered(x)[m].0))
            && (LongKeys(x) ==> |before| >= 10)
  {
    if m > 0 {
      SortIsStable(x);
      LexTransitive(LastDate(SortItems(x), Rule(EndDates(x)), m), Ordered(x)[m - 1].0, Ordered(x)[m].0);
    }
  }

  lemma {:induction false} Rekey(x: seq<Item>, m: int)
    requires Regular(x) && 0 <= m < |x| == |Ordered(x)| == |SortItems(x)|
    ensures RekeyedWell(x, m)
    decreases m
  {
    if m > 0 { Rekey(x, m - 1); }
    if Free(EndDates(x), SortItems(x)[m]) {
      RekeyFree(x, m);
    } else if Ordered(x)[m].0 == FALLBACK {
      RekeyUndated(x, m);
    } else {
      RekeySegment(x, m);
    }
  }

  lemma RekeyFree(x: seq<Item>, m: int)
    requires Reached(x, m) && Free(EndDates(x), SortItems(x)[m])
    ensures RekeyedWell(x, m)
  {
    Rekeyed(x, m);
    CarriedDate(x, m);
    var y, s, rule := SortItems(x), Ordered(x), Rule(EndDates(x));
    FreeKey(EndDates(x), y[m], LastDate(y, rule, m), LastDate(x, rule, s[m].1));
    LexTotal(s[m].0, s[m].0);
    assert s[m].0 == Key(x, s[m].1) by { OrderedAt(x, m); }
  }

  /** A segment without a date of its own takes the date carried so far. */
  lemma RekeyUndated(x: seq<Item>, m: int)
    requires Reached(x, m) && !Free(EndDates(x), SortItems(x)[m]) && Ordered(x)[m].0 == FALLBACK
    ensures RekeyedWell(x, m)
  {
    Rekeyed(x, m);
    CarriedDate(x, m);
    var y, s, rule := SortItems(x), Ordered(x), Rule(EndDates(x));
    SegmentKey(EndDates(x), y[m], LastDate(y, rule, m));
    SegmentKey(EndDates(x), y[m], LastDate(x, rule, s[m].1));
    DayStartNotFallback(y[m].day);
    LexTotal(FALLBACK, FALLBACK);
  }

  lemma RekeySegment(x: seq<Item>, m: int)
    requires Reached(x, m) && !Free(EndDates(x), SortItems(x)[m]) && Ordered(x)[m].0 != FALLBACK
    ensures RekeyedWell(x, m)
  {
    Rekeyed(x, m);
    var y, s, rule := SortItems(x), Ordered(x), Rule(EndDates(x));
    SegmentKey(EndDates(x), y[m], LastDate(x, rule, s[m].1));
    var last := LastDate(x, rule, s[m].1);
    if y[m].day == "" || (last != FALLBACK && DayPart(last) == y[m].day) {
      RekeyInheritor(x, m);
    } else {
      RekeyDayStart(x, m);
    }
  }

  /** It took its key from what preceded it: the same item or an equal key precedes it now. */
  lemma RekeyInheritor(x: seq<Item>, m: int)
    requires Reached(x, m) && !Free(EndDates(x), SortItems(x)[m]) && Ordered(x)[m].0 != FALLBACK
    requires 0 <= Ordered(x)[m].1 < |x| && Ordered(x)[m].0 == LastDate(x, Rule(EndDates(x)), Ordered(x)[m].1)
    requires SortItems(x)[m].day == "" || DayPart(Ordered(x)[m].0) == SortItems(x)[m].day
    ensures RekeyedWell(x, m)
  {
    Rekeyed(x, m);
    InheritorFollows(x, m);
    var y := SortItems(x);
    SegmentKey(EndDates(x), y[m], LastDate(y, Rule(EndDates(x)), m));
    LexTotal(Key(y, m), Key(y, m));
  }

  /** It was dated on its own day: it still is, or joins a date on that day. */
  lemma RekeyDayStart(x: seq<Item>, m: int)
    requires Reached(x, m) && !Free(EndDates(x), SortItems(x)[m])
    requires SortItems(x)[m].day != "" && Ordered(x)[m].0 == DayStart(SortItems(x)[m].day)
    ensures RekeyedWell(x, m)
  {
    Rekeyed(x, m);
    CarriedDate(x, m);
    var y, k := SortItems(x), Ordered(x)[m].0;
    var day, before := y[m].day, LastDate(y, Rule(EndDates(x)), m);
    SegmentKey(EndDates(x), y[m], before);
    DayStartNotFallback(day);
    LexTotal(k, k);
    if before != FALLBACK && DayPart(before) == day {
      assert |day| == 10;
      DayPartOfStart(day);
      FallbackIsLate();
      if LexLeq(before, FALLBACK) { DayStartsBelow(before, FALLBACK); }
      LexTotal(before, before);
    }
  }

  // ------------------------------------------------------------------ the theorem

  /** An item leaves a date carried to it, or moves it on. */
  lemma CarriedOn(x: seq<Item>, m: int)
    requires Regular(x) && 0 <= m < |x| == |Ordered(x)| == |SortItems(x)|
    ensures var y, rule := SortItems(x), Rule(EndDates(x));
            var before, after := LastDate(y, rule, m), LastDate(y, rule, m + 1);
            && (before != FALLBACK ==> after != FALLBACK && LexLeq(before, after))
            && (Ordered(x)[m].0 != FALLBACK ==> after == Key(SortItems(x), m) != FALLBACK)
  {
    Rekey(x, m);
    var before := LastDate(SortItems(x), Rule(EndDates(x)), m);
    LexTotal(before, before);
  }

  /** Dates that, once there, stay and do not fall. */
  ghost predicate NeverFall(lasts: seq<string>, top: string) {
    forall m :: 0 < m < |lasts| && lasts[m - 1] != top ==> lasts[m] != top && LexLeq(lasts[m - 1], lasts[m])
  }

  lemma {:induction false} DatesGrow(lasts: seq<string>, top: string, i: nat, j: nat)
    requires i <= j < |lasts| && lasts[i] != top && NeverFall(lasts, top)
    ensures lasts[j] != top && LexLeq(lasts[i], lasts[j])
    decreases j
  {
    if i == j {
      LexTotal(lasts[i], lasts[i]);
    } else {
      DatesGrow(lasts, top, i, j - 1);
      LexTransitive(lasts[i], lasts[j - 1], lasts[j]);
    }
  }

  /** The dates carried through the second pass, from before the first item to after the last. */
  function Lasts(y: seq<Item>, rule: (Item, string) -> string): (lasts: seq<string>)
    ensures |lasts| == |y| + 1 && forall m :: 0 <= m <= |y| ==> lasts[m] == LastDate(y, rule, m)
  {
    seq(|y| + 1, m requires 0 <= m <= |y| => LastDate(y, rule, m))
  }

  lemma LastsNeverFall(x: seq<Item>)
    requires Regular(x) && |x| == |Ordered(x)| == |SortItems(x)|
    ensures NeverFall(Lasts(SortItems(x), Rule(EndDates(x))), FALLBACK)
  {
    var lasts := Lasts(SortItems(x), Rule(EndDates(x)));
    forall m | 0 < m < |lasts| && lasts[m - 1] != FALLBACK
      ensures lasts[m] != FALLBACK && LexLeq(lasts[m - 1], lasts[m])
    {
      CarriedOn(x, m - 1);
    }
  }

  /** Once something is dated, the date carried never falls behind it. */
  lemma GrowsTo(x: seq<Item>, i: nat, j: nat)
    requires Regular(x) && i < j <= |x| == |Ordered(x)| == |SortItems(x)| && Ordered(x)[i].0 != FALLBACK
    ensures var last := LastDate(SortItems(x), Rule(EndDates(x)), j);
            last != FALLBACK && LexLeq(Key(SortItems(x), i), last)
  {
    LastsNeverFall(x);
    CarriedOn(x, i);
    DatesGrow(Lasts(SortItems(x), Rule(EndDates(x))), FALLBACK, i + 1, j);
  }

  /** Undated items carry the date on as it is. */
  lemma {:induction false} CarriedThroughUndated(x: seq<Item>, i: nat, j: nat)
    requires Regular(x) && i <= j <= |x| == |Ordered(x)| == |SortItems(x)|
    requires forall n :: i <= n < j ==> Ordered(x)[n].0 == FALLBACK
    ensures LastDate(SortItems(x), Rule(EndDates(x)), i) == LastDate(SortItems(x), Rule(EndDates(x)), j)
    decreases j
  {
    if i < j {
      CarriedThroughUndated(x, i, j - 1);
      Rekey(x, j - 1);
    }
  }

  /** Sorted keys equal to the same bound at both ends are equal to it throughout. */
  lemma UndatedBetween(x: seq<Item>, i: nat, j: nat)
    requires i <= j < |Ordered(x)| && Ordered(x)[i].0 == Ordered(x)[j].0
    ensures forall n :: i <= n < j ==> Ordered(x)[n].0 == Ordered(x)[j].0
  {
    SortIsStable(x);
    forall n | i < n < j ensures Ordered(x)[n].0 == Ordered(x)[j].0 {
      LexTotal(Ordered(x)[i].0, Ordered(x)[n].0);
    }
  }

  /** The recomputed keys of two items are in order unless a segment overtakes. */
  lemma KeysGrow(x: seq<Item>, i: nat, j: nat)
    requires Regular(x) && i < j < |x| == |Ordered(x)| == |SortItems(x)|
    requires Ordered(x)[i].0 == FALLBACK == Ordered(x)[j].0 && SortItems(x)[j].Segment? && !SortItems(x)[i].Segment? ==>
               LastDate(SortItems(x), Rule(EndDates(x)), j) == FALLBACK
    ensures LexLeq(Key(SortItems(x), i), Key(SortItems(x), j))
  {
    Rekey(x, i);
    Rekey(x, j);
    SortIsStable(x);
    if Ordered(x)[i].0 != FALLBACK {
      DatedGrows(x, i, j);
    } else if Ordered(x)[j].0 != FALLBACK {
      AcrossFallback(Key(SortItems(x), i), Key(SortItems(x), j), Ordered(x)[j].0, FALLBACK);
    } else {
      UndatedBetween(x, i, j);
      CarriedThroughUndated(x, i, j);
      LexTotal(Key(SortItems(x), i), Key(SortItems(x), i));
    }
  }

  lemma AcrossFallback(a: string, b: string, k: string, top: string)
    requires LexLeq(a, top) && LexLeq(top, k) && k != top && (LexLeq(b, top) ==> LexLeq(k, top))
    ensures LexLeq(a, b)
  {
    LexTotal(top, k);
    LexTotal(b, top);
    LexTransitive(a, top, b);
  }

  lemma DatedGrows(x: seq<Item>, i: nat, j: nat)
    requires Regular(x) && i < j < |x| == |Ordered(x)| == |SortItems(x)| && Ordered(x)[i].0 != FALLBACK
    requires RekeyedWell(x, i) && RekeyedWell(x, j) && LexLeq(Ordered(x)[i].0, Ordered(x)[j].0)
    ensures LexLeq(Key(SortItems(x), i), Key(SortItems(x), j))
  {
    var y, last := SortItems(x), LastDate(SortItems(x), Rule(EndDates(x)), j);
    GrowsTo(x, i, j);
    if Ordered(x)[j].0 != FALLBACK {
      LexTransitive(Key(y, i), last, Key(y, j));
    } else {
      LexTransitive(Key(y, i), Ordered(x)[i].0, Ordered(x)[j].0);
    }
  }

  /** A non-segment without a date stands before a segment without one. */
  ghost predicate Overtakes(x: seq<Item>, i: int, j: int) {
    && 0 <= i < j < |x| && Key(x, i) == FALLBACK && Key(x, j) == FALLBACK
    && !x[i].Segment? && x[j].Segment?
  }

  predicate Earlier(a: string, b: string) {
    LexLeq(a, b) && a != b
  }

  ghost predicate SomeDated(x: seq<Item>) {
    exists e :: 0 <= e < |x| && Earlier(Key(x, e), FALLBACK)
  }

  /** Something is dated if and only if the first sorted item is. */
  lemma DatedFirst(x: seq<Item>)
    requires |x| == |Ordered(x)| > 0
    ensures SomeDated(x) <==> Earlier(Ordered(x)[0].0, FALLBACK)
  {
    OrderedAt(x, 0);
    if SomeDated(x) {
      var e :| 0 <= e < |x| && Earlier(Key(x, e), FALLBACK);
      var m := PlaceOf(x, e);
      SortIsStable(x);
      if m > 0 { NotPast(Ordered(x)[0].0, Key(x, e), FALLBACK); }
    }
  }

  lemma NotPast(a: string, b: string, top: string)
    requires LexLeq(a, b) && Earlier(b, top)
    ensures Earlier(a, top)
  {
    LexTransitive(a, b, top);
    LexTotal(b, top);
  }

  lemma NothingCarried(x: seq<Item>, j: nat)
    requires Regular(x) && j < |x| == |Ordered(x)| == |SortItems(x)| && !SomeDated(x) && Ordered(x)[j].0 == FALLBACK
    ensures LastDate(SortItems(x), Rule(EndDates(x)), j) == FALLBACK
  {
    DatedFirst(x);
    SortIsStable(x);
    LexTotal(FALLBACK, FALLBACK);
    assert LexLeq(Ordered(x)[0].0, FALLBACK);
    UndatedBetween(x, 0, j);
    CarriedThroughUndated(x, 0, j);
  }

  lemma NoOvertakingIsSorted(x: seq<Item>)
    requires Regular(x) && !(SomeDated(x) && exists i, j :: Overtakes(x, i, j))
    ensures Sorted(LexLeq, Keyed(SortItems(x)))
  {
    OrderedLength(x);
    var y := SortItems(x);
    forall i, j | 0 <= i < j < |y| ensures LexLeq(Keyed(y)[i].0, Keyed(y)[j].0) {
      if Ordered(x)[i].0 == FALLBACK == Ordered(x)[j].0 && y[j].Segment? && !y[i].Segment? {
        SortedOvertakes(x, i, j);
        NothingCarried(x, j);
      }
      KeysGrow(x, i, j);
    }
  }

  /** Undated items keep their order, so one overtaking the other can be read off either list. */
  lemma SortedOvertakes(x: seq<Item>, m: nat, n: nat)
    requires m < n < |x| == |Ordered(x)| == |SortItems(x)| && Ordered(x)[m].0 == FALLBACK == Ordered(x)[n].0
    requires SortItems(x)[n].Segment? && !SortItems(x)[m].Segment?
    ensures Overtakes(x, Ordered(x)[m].1, Ordered(x)[n].1)
  {
    OrderedAt(x, m);
    OrderedAt(x, n);
    var i, j := Ordered(x)[m].1, Ordered(x)[n].1;
    if i == j { OnePlace(x, m, n); }
    if j < i {
      EqualKeysStay(x, j, i);
      assert Before(Ordered(x), Ordered(x)[m], Ordered(x)[n]);
    }
  }

  /** Equal items that are no segments have equal keys wherever they stand. */
  lemma SameKey(y: seq<Item>, m: nat, i: nat)
    requires m < |y| && i < |y| && y[m] == y[i] && !y[m].Segment?
    ensures Key(y, m) == Key(y, i)
  {
    var rule := Rule(EndDates(y));
    FreeKey(EndDates(y), y[m], LastDate(y, rule, m), LastDate(y, rule, i));
  }

  /** With something dated, every segment gets a date from the second pass. */
  lemma SegmentsDated(x: seq<Item>, j: nat)
    requires Regular(x) && SomeDated(x) && j < |x| == |Ordered(x)| == |SortItems(x)| && SortItems(x)[j].Segment?
    ensures Key(SortItems(x), j) != FALLBACK
  {
    Rekey(x, j);
    DatedFirst(x);
    if Ordered(x)[j].0 == FALLBACK { GrowsTo(x, 0, j); }
  }

  /** The indices that the order of `y` puts from place n on: as many as there are places. */
  lemma {:induction false} IndicesFrom(y: seq<Item>, n: nat)
    requires n <= |y| == |Ordered(y)|
    ensures |set p | n <= p < |y| :: Ordered(y)[p].1| == |y| - n
    decreases |y| - n
  {
    var from := set p | n <= p < |y| :: Ordered(y)[p].1;
    if n < |y| {
      IndicesFrom(y, n + 1);
      var rest := set p | n + 1 <= p < |y| :: Ordered(y)[p].1;
      assert from == rest + {Ordered(y)[n].1};
      if Ordered(y)[n].1 in rest {
        var p :| n + 1 <= p < |y| && Ordered(y)[p].1 == Ordered(y)[n].1;
        OrderedAt(y, p);
        OrderedAt(y, n);
        OnePlace(y, p, n);
      }
    }
  }

  function Range(a: int, b: int): (r: set<int>)
    requires a <= b
    ensures |r| == b - a && forall q :: q in r <==> a <= q < b
    decreases b - a
  {
    if a == b then {} else {a} + Range(a + 1, b)
  }

  /** The order cannot fill the places from n on with later keys than the list has after n. */
  lemma PlacesRunOut(y: seq<Item>, n: nat, top: string)
    requires n < |y| == |Ordered(y)| && forall q :: 0 <= q <= n ==> LexLeq(Key(y, q), top)
    ensures LexLeq(Ordered(y)[n].0, top)
  {
    if !LexLeq(Ordered(y)[n].0, top) {
      var from := set p | n <= p < |y| :: Ordered(y)[p].1;
      forall p | n <= p < |y| ensures n + 1 <= Ordered(y)[p].1 < |y| {
        OrderedAt(y, p);
        OrderedLeq(y, n, p);
        if LexLeq(Ordered(y)[p].0, top) { LexTransitive(Ordered(y)[n].0, Ordered(y)[p].0, top); }
      }
      IndicesFrom(y, n);
      Fewer(from, Range(n + 1, |y|));
      assert false;
    }
  }

  lemma Fewer(a: set<int>, b: set<int>)
    requires a <= b
    ensures |a| <= |b|
  {
    assert b == a + (b - a);
  }

  lemma OvertakingMoves(x: seq<Item>, m: nat, n: nat)
    requires Regular(x) && SomeDated(x) && m < n < |x| == |Ordered(x)| == |SortItems(x)|
    requires Ordered(x)[m].0 == FALLBACK == Ordered(x)[n].0 && !SortItems(x)[m].Segment? && SortItems(x)[n].Segment?
    ensures SortItems(SortItems(x)) != SortItems(x)
  {
    var y := SortItems(x);
    OrderedLength(y);
    OrderedAt(y, m);
    OrderedAt(y, n);
    if SortItems(y) == y {
      var i, j := Ordered(y)[m].1, Ordered(y)[n].1;
      Rekey(x, m);
      SameKey(y, m, i);
      SegmentsDated(x, j);
      NotPastAt(x, n);
      PlacesRunOut(y, n, FALLBACK);
      SortIsStable(y);
      LexTotal(Ordered(y)[m].0, Ordered(y)[n].0);
      assert false;
    }
  }

  lemma NotPastAt(x: seq<Item>, n: nat)
    requires Regular(x) && n < |x| == |Ordered(x)| == |SortItems(x)| && Ordered(x)[n].0 == FALLBACK
    ensures forall q :: 0 <= q <= n ==> LexLeq(Key(SortItems(x), q), FALLBACK)
  {
    forall q | 0 <= q <= n ensures LexLeq(Key(SortItems(x), q), FALLBACK) {
      Rekey(x, q);
      SortIsStable(x);
      if q < n { LexTransitive(Key(SortItems(x), q), Ordered(x)[q].0, FALLBACK); }
    }
  }

  lemma UndatedPlaces(x: seq<Item>, i: int, j: int) returns (m: int, n: int)
    requires Overtakes(x, i, j)
    ensures 0 <= m < n < |Ordered(x)| && Ordered(x)[m] == (FALLBACK, i) && Ordered(x)[n] == (FALLBACK, j)
  {
    EqualKeysStay(x, i, j);
    m, n :| 0 <= m < n < |Ordered(x)| && Ordered(x)[m] == (Key(x, i), i) && Ordered(x)[n] == (Key(x, j), j);
  }

  /** For a regular list, sorting again changes nothing if and only if no undated segment stands
      behind an undated item of another kind while something is dated. */
  lemma IdempotentExactly(x: seq<Item>)
    requires Regular(x)
    ensures SortItems(SortItems(x)) == SortItems(x) <==> !(SomeDated(x) && exists i, j :: Overtakes(x, i, j))
  {
    if SomeDated(x) && exists i, j :: Overtakes(x, i, j) {
      var i, j :| Overtakes(x, i, j);
      var m, n := UndatedPlaces(x, i, j);
      OrderedAt(x, m);
      OrderedAt(x, n);
      OvertakingMoves(x, m, n);
    } else {
      NoOvertakingIsSorted(x);
      SortedIsFixed(SortItems(x));
    }
  }

  // ------------------------------------------------------- sorting a few pairs by hand

  /** Sorting three pairs by hand: the last one's key is smaller than the second's and not
      greater than the first's, or equal to the first's. */
  lemma InsertThree<K(!new), T>(leq: (K, K) -> bool, a: (K, T), b: (K, T), c: (K, T))
    requires TotalOrder(leq) && leq(a.0, b.0) && !leq(b.0, c.0)
    ensures InsertAll(leq, [], [a, b, c]) == if leq(a.0, c.0) then [a, c, b] else [c, a, b]
  {
    assert [a, b, c][1..] == [b, c] && [b, c][1..] == [c] && [c][1..] == [];
    var s1 := Insert(leq, [], a);
    assert s1 == [a];
    InsertionPointUnique(leq, [a], b.0, 1);
    var s2 := Insert(leq, [a], b);
    assert s2 == [a, b];
    InsertionPointUnique(leq, [a, b], c.0, if leq(a.0, c.0) then 1 else 0);
    var s3 := Insert(leq, [a, b], c);
    assert s3 == if leq(a.0, c.0) then [a, c, b] else [c, a, b];
    assert InsertAll(leq, [], [a, b, c]) == InsertAll(leq, s1, [b, c]) == InsertAll(leq, s2, [c]);
    assert InsertAll(leq, s2, [c]) == InsertAll(leq, s3, []);
  }

  lemma InsertAt<K, T>(leq: (K, K) -> bool, s: seq<(K, T)>, e: (K, T), at: nat)
    requires at <= |s|
    requires forall i :: 0 <= i < at ==> leq(s[i].0, e.0)
    requires at < |s| ==> !leq(s[at].0, e.0)
    ensures Insert(leq, s, e) == s[..at] + [e] + s[at..]
  {
    InsertionPointUnique(leq, s, e.0, at);
  }

  /** Sorting four pairs by hand, given the list after each insertion. */
  lemma InsertFour<K, T>(leq: (K, K) -> bool, s: seq<(K, T)>, s2: seq<(K, T)>, s3: seq<(K, T)>, s4: seq<(K, T)>)
    requires |s| == 4 && Insert(leq, [s[0]], s[1]) == s2 && Insert(leq, s2, s[2]) == s3 && Insert(leq, s3, s[3]) == s4
    ensures InsertAll(leq, [], s) == s4
  {
    assert s[1..][1..] == s[2..] && s[2..][1..] == s[3..] && s[3..][1..] == [];
    assert Insert(leq, [], s[0]) == [s[0]];
    assert InsertAll(leq, [], s) == InsertAll(leq, [s[0]], s[1..]) == InsertAll(leq, s2, s[2..]);
    assert InsertAll(leq, s2, s[2..]) == InsertAll(leq, s3, s[3..]) == InsertAll(leq, s4, []);
  }

  lemma FirstGoesLast<K, T>(leq: (K, K) -> bool, s: seq<(K, T)>)
    requires |s| == 4
    requires !leq(s[0].0, s[1].0) && !leq(s[0].0, s[2].0) && !leq(s[0].0, s[3].0)
    requires leq(s[1].0, s[2].0) && leq(s[1].0, s[3].0) && leq(s[2].0, s[3].0)
    ensures InsertAll(leq, [], s) == [s[1], s[2], s[3], s[0]]
  {
    var a, b, c, d := s[0], s[1], s[2], s[3];
    InsertAt(leq, [a], b, 0);
    InsertAt(leq, [b, a], c, 1);
    InsertAt(leq, [b, c, a], d, 2);
    InsertFour(leq, s, [b, a], [b, c, a], [b, c, d, a]);
  }

  lemma LastGoesFirst<K, T>(leq: (K, K) -> bool, s: seq<(K, T)>)
    requires |s| == 4
    requires leq(s[0].0, s[1].0) && leq(s[0].0, s[2].0)
    requires leq(s[1].0, s[2].0) && !leq(s[0].0, s[3].0)
    ensures InsertAll(leq, [], s) == [s[3], s[0], s[1], s[2]]
  {
    var a, b, c, d := s[0], s[1], s[2], s[3];
    InsertAt(leq, [a], b, 1);
    InsertAt(leq, [a, b], c, 2);
    InsertAt(leq, [a, b, c], d, 0);
    InsertFour(leq, s, [a, b], [a, b, c], [d, a, b, c]);
  }

  lemma LastTwoSwap<K, T>(leq: (K, K) -> bool, s: seq<(K, T)>)
    requires |s| == 4
    requires leq(s[0].0, s[1].0) && leq(s[0].0, s[2].0) && leq(s[1].0, s[2].0)
    requires leq(s[0].0, s[3].0) && leq(s[1].0, s[3].0) && !leq(s[2].0, s[3].0)
    ensures InsertAll(leq, [], s) == [s[0], s[1], s[3], s[2]]
  {
    var a, b, c, d := s[0], s[1], s[2], s[3];
    InsertAt(leq, [a], b, 1);
    InsertAt(leq, [a, b], c, 2);
    InsertAt(leq, [a, b, c], d, 2);
    InsertFour(leq, s, [a, b], [a, b, c], [a, b, d, c]);
  }

  lemma MiddleSwaps<K, T>(leq: (K, K) -> bool, s: seq<(K, T)>)
    requires |s| == 4
    requires leq(s[0].0, s[1].0) && leq(s[0].0, s[2].0) && !leq(s[1].0, s[2].0)
    requires leq(s[0].0, s[3].0) && leq(s[1].0, s[3].0) && leq(s[2].0, s[3].0)
    ensures InsertAll(leq, [], s) == [s[0], s[2], s[1], s[3]]
  {
    var a, b, c, d := s[0], s[1], s[2], s[3];
    InsertAt(leq, [a], b, 1);
    InsertAt(leq, [a, b], c, 1);
    InsertAt(leq, [a, c, b], d, 3);
    InsertFour(leq, s, [a, b], [a, c, b], [a, c, b, d]);
  }

  lemma SortFour(x: seq<Item>, p: seq<nat>)
    requires |x| == |p| == 4 && (forall m :: 0 <= m < 4 ==> p[m] < 4)
    requires var s := Keyed(x); Ordered(x) == [s[p[0]], s[p[1]], s[p[2]], s[p[3]]]
    ensures SortItems(x) == [x[p[0]], x[p[1]], x[p[2]], x[p[3]]]
  {
  }

  /** The order the keys are sorted by, as far as three dates go. */
  ghost predicate Chain(x: seq<Item>, leq: (string, string) -> bool, a: string, b: string, c: string) {
    && Ordered(x) == InsertAll(leq, [], Keyed(x))
    && leq(a, a) && leq(b, b) && leq(c, c) && leq(a, b) && leq(b, c) && leq(a, c)
    && !leq(b, a) && !leq(c, b) && !leq(c, a)
  }

  lemma ChainHolds(x: seq<Item>, a: string, b: string, c: string)
    requires Earlier(a, b) && Earlier(b, c)
    ensures Chain(x, LexLeq, a, b, c)
  {
    LexTransitive(a, b, c);
    LexTotal(a, a);
    LexTotal(b, b);
    LexTotal(c, c);
    LexTotal(a, b);
    LexTotal(b, c);
    LexTotal(a, c);
  }

  lemma SortFirstLast(x: seq<Item>, leq: (string, string) -> bool, a: string, b: string, c: string)
    requires |x| == 4 && Key(x, 0) == c && Key(x, 1) == Key(x, 2) == a && Key(x, 3) == b && Chain(x, leq, a, b, c)
    ensures SortItems(x) == [x[1], x[2], x[3], x[0]]
  {
    FirstGoesLast(leq, Keyed(x));
    SortFour(x, [1, 2, 3, 0]);
  }

  lemma SortMiddle(y: seq<Item>, leq: (string, string) -> bool, a: string, b: string, c: string)
    requires |y| == 4 && Key(y, 0) == a && Key(y, 1) == Key(y, 3) == c && Key(y, 2) == b && Chain(y, leq, a, b, c)
    ensures SortItems(y) == [y[0], y[2], y[1], y[3]]
  {
    MiddleSwaps(leq, Keyed(y));
    SortFour(y, [0, 2, 1, 3]);
  }

  lemma SortLastFirst(x: seq<Item>, leq: (string, string) -> bool, a: string, b: string, c: string)
    requires |x| == 4 && Key(x, 0) == Key(x, 1) == Key(x, 2) == b && Key(x, 3) == a && Chain(x, leq, a, b, c)
    ensures SortItems(x) == [x[3], x[0], x[1], x[2]]
  {
    LastGoesFirst(leq, Keyed(x));
    SortFour(x, [3, 0, 1, 2]);
  }

  lemma SortLastThird(y: seq<Item>, leq: (string, string) -> bool, a: string, b: string, c: string)
    requires |y| == 4 && Key(y, 0) == Key(y, 1) == a && Key(y, 3) == b && Key(y, 2) == c && Chain(y, leq, a, b, c)
    ensures SortItems(y) == [y[0], y[1], y[3], y[2]]
  {
    LastTwoSwap(leq, Keyed(y));
    SortFour(y, [0, 1, 3, 2]);
  }

  lemma OrderedThree(items: seq<Item>, k: string, d: string)
    requires |items| == 3 && LexLeq(d, k) && d != k
    requires Key(items, 2) == d && Key(items, 1) == k && Key(items, 0) in {k, d}
    ensures Ordered(items) == if Key(items, 0) == d then [(d, 0), (d, 2), (k, 1)] else [(d, 2), (k, 0), (k, 1)]
  {
    LexOrder();
    assert Keyed(items) == [(Key(items, 0), 0), (k, 1), (d, 2)];
    InsertThree(LexLeq, (Key(items, 0), 0), (k, 1), (d, 2));
  }

  lemma SortThree(items: seq<Item>, k: string, d: string)
    requires |items| == 3 && LexLeq(d, k) && d != k
    requires Key(items, 2) == d && Key(items, 1) == k && Key(items, 0) in {k, d}
    ensures SortItems(items)
         == if Key(items, 0) == d then [items[0], items[2], items[1]] else [items[2], items[0], items[1]]
  {
    OrderedThree(items, k, d);
  }

  lemma FourKeys(x: seq<Item>, rule: (Item, string) -> string)
    requires |x| == 4 && rule == Rule(EndDates(x))
    ensures Key(x, 0) == rule(x[0], FALLBACK)
    ensures var d := Carry(Key(x, 0), FALLBACK);
            && Key(x, 1) == rule(x[1], d)
            && Key(x, 2) == rule(x[2], Carry(Key(x, 1), d))
            && Key(x, 3) == rule(x[3], Carry(Key(x, 2), Carry(Key(x, 1), d)))
  {
    LastDateNext(x, rule, 0);
    LastDateNext(x, rule, 1);
    LastDateNext(x, rule, 2);
  }

  function Carry(key: string, last: string): string {
    if key != FALLBACK then key else last
  }

  lemma EndsStep(x: seq<Item>, n: nat)
    requires n < |x|
    ensures EndDates(x[..n + 1]) == WithEnd(EndDates(x[..n]), x[n])
  {
    assert x[..n + 1] == x[..n] + [x[n]];
    OneMoreEnd(x[..n], x[n]);
  }

  lemma EndsOfFour(x: seq<Item>)
    requires |x| == 4
    ensures EndDates(x) == WithEnd(WithEnd(WithEnd(WithEnd(map[], x[0]), x[1]), x[2]), x[3])
  {
    EndsStep(x, 0);
    EndsStep(x, 1);
    EndsStep(x, 2);
    EndsStep(x, 3);
    assert x[..4] == x;
  }

  // -------------------------------------------------------------- the failing lists

  /** An undated item and an undated segment in front of a dated activity. */
  function UndatedFirst(c: Coord, d: string): seq<Item> {
    [Blank, Segment(Some(c), ""), Activity(Some(d), None)]
  }

  lemma EndsOfThree(x: seq<Item>)
    requires |x| == 3 && forall m :: 0 <= m < 3 ==> !x[m].Activity? || x[m].end.None?
    ensures EndDates(x) == map[]
  {
    EndsStep(x, 0);
    EndsStep(x, 1);
    EndsStep(x, 2);
    assert x[..3] == x;
  }

  lemma UndatedFirstKeys(c: Coord, d: string)
    ensures var x := UndatedFirst(c, d); Key(x, 0) == FALLBACK && Key(x, 1) == FALLBACK && Key(x, 2) == d
  {
    var x := UndatedFirst(c, d);
    EndsOfThree(x);
    LastDateNext(x, Rule(EndDates(x)), 0);
  }

  lemma UndatedFirstKeysSorted(c: Coord, d: string)
    requires d != FALLBACK
    ensures var x := [UndatedFirst(c, d)[2], UndatedFirst(c, d)[0], UndatedFirst(c, d)[1]];
            Key(x, 0) == d && Key(x, 1) == FALLBACK && Key(x, 2) == d
  {
    var x := [UndatedFirst(c, d)[2], UndatedFirst(c, d)[0], UndatedFirst(c, d)[1]];
    EndsOfThree(x);
    LastDateNext(x, Rule(EndDates(x)), 0);
    LastDateNext(x, Rule(EndDates(x)), 1);
  }

  /** Sorting twice may differ from sorting once: the first sort moves an undated segment to
      the end, behind an item without a date, and there it inherits a date. */
  lemma SortNotIdempotent(c: Coord, d: string)
    requires Earlier(d, FALLBACK)
    ensures var x := UndatedFirst(c, d);
            SortItems(x) == [x[2], x[0], x[1]] && SortItems(SortItems(x)) == [x[2], x[1], x[0]]
  {
    var x := UndatedFirst(c, d);
    UndatedFirstKeys(c, d);
    SortThree(x, FALLBACK, d);
    UndatedFirstKeysSorted(c, d);
    SortThree([x[2], x[0], x[1]], FALLBACK, d);
  }

  // Two further causes, each outside `Regular`: four items that are sorted into an order whose
  // recomputed keys decrease.

  /** Dates other than the fallback, the first before the second before the third. */
  predicate Dates(a: string, b: string, c: string) {
    a != "" && c != "" && Earlier(a, b) && Earlier(b, c) && FALLBACK !in {a, b, c}
  }

  /** Two activities ending at one place, the later one listed first, and a segment from there. */
  function TiedEnds(at: Coord, a: string, b: string, c: string): seq<Item> {
    [Activity(Some(c), Some(at)), Activity(Some(a), Some(at)), Segment(Some(at), ""), Activity(Some(b), None)]
  }

  lemma TiedKeys(at: Coord, a: string, b: string, c: string)
    requires Dates(a, b, c)
    ensures var x := TiedEnds(at, a, b, c); Key(x, 0) == c && Key(x, 1) == a && Key(x, 2) == a && Key(x, 3) == b
  {
    var x := TiedEnds(at, a, b, c);
    EndsOfFour(x);
    FourKeys(x, Rule(EndDates(x)));
  }

  lemma TiedKeysSorted(at: Coord, a: string, b: string, c: string, y: seq<Item>)
    requires Dates(a, b, c) && var x := TiedEnds(at, a, b, c); y == [x[1], x[2], x[3], x[0]]
    ensures Key(y, 0) == a && Key(y, 1) == c && Key(y, 2) == b && Key(y, 3) == c
  {
    EndsOfFour(y);
    FourKeys(y, Rule(EndDates(y)));
  }

  /** The first sort puts the later activity last, so the segment takes another date the second
      time. Everything is dated. */
  lemma TiedEndsMoveSegment(at: Coord, a: string, b: string, c: string)
    requires Dates(a, b, c)
    ensures var x := TiedEnds(at, a, b, c);
            SortItems(x) == [x[1], x[2], x[3], x[0]] && SortItems(SortItems(x)) == [x[1], x[3], x[2], x[0]]
  {
    var x := TiedEnds(at, a, b, c);
    var y := [x[1], x[2], x[3], x[0]];
    TiedKeys(at, a, b, c);
    ChainHolds(x, a, b, c);
    SortFirstLast(x, LexLeq, a, b, c);
    TiedKeysSorted(at, a, b, c, y);
    ChainHolds(y, a, b, c);
    SortMiddle(y, LexLeq, a, b, c);
  }

  /** Two entries on the date `d` that is one character long, at the times `t` and `t` with the
      text appended that a day starts with, and two segments whose days are what keys begin with. */
  function ShortDates(at: Coord, d: char, t: char): seq<Item> {
    var day := [d, 'T', t];
    [Segment(Some(at), day), Segment(Some(at), day + "T00:00:"), Entry([d], [t] + "T00:00:01"), Entry([d], [t])]
  }

  lemma {:induction false} PrefixLeq(a: string, b: string)
    ensures LexLeq(a, a + b)
  {
    if a != [] {
      PrefixLeq(a[1..], b);
      assert (a + b)[1..] == a[1..] + b;
    }
  }

  lemma ShortDateOrder(a: string, b: string, long: string)
    requires |a| == 3 && b == DayStart(a) && long == a + "T00:00:"
    ensures Earlier(a, b) && Earlier(b, DayStart(long))
    ensures DayPart(a) == a && DayPart(b) == long && a != long && FALLBACK !in {a, b, DayStart(long)}
  {
    PrefixLeq(a, "T00:00:01");
    assert b == long + "01" && b[..10] == long && |b| == 12;
    LexTotal(long, long);
    LexExtend(long, long, "01", "T00:00:01");
    DayStartNotFallback(a);
    DayStartNotFallback(long);
  }

  lemma ShortDateKeys(at: Coord, d: char, t: char, a: string, b: string)
    requires a == [d, 'T', t] && b == DayStart(a) && DayPart(b) == a + "T00:00:" && FALLBACK !in {a, b}
    ensures var x := ShortDates(at, d, t); Key(x, 0) == b && Key(x, 1) == b && Key(x, 2) == b && Key(x, 3) == a
  {
    var x := ShortDates(at, d, t);
    assert [d] + "T" + ([t] + "T00:00:01") == b && [d] + "T" + [t] == a;
    EndsOfFour(x);
    FourKeys(x, Rule(EndDates(x)));
  }

  lemma ShortDateKeysSorted(at: Coord, d: char, t: char, a: string, b: string, y: seq<Item>)
    requires a == [d, 'T', t] && b == DayStart(a) && DayPart(a) == a && FALLBACK !in {a, b, DayStart(a + "T00:00:")}
    requires var x := ShortDates(at, d, t); y == [x[3], x[0], x[1], x[2]]
    ensures Key(y, 0) == a && Key(y, 1) == a && Key(y, 2) == DayStart(a + "T00:00:") && Key(y, 3) == b
  {
    assert [d] + "T" + ([t] + "T00:00:01") == b && [d] + "T" + [t] == a;
    EndsOfFour(y);
    FourKeys(y, Rule(EndDates(y)));
  }

  /** Dates and days are not validated. A key shorter than a date is compared with a segment's
      day as a whole, and then a segment can lose the date it shared once something earlier is
      sorted in front of it. */
  lemma ShortDateMovesSegment(at: Coord, d: char, t: char)
    ensures var x := ShortDates(at, d, t);
            SortItems(x) == [x[3], x[0], x[1], x[2]] && SortItems(SortItems(x)) == [x[3], x[0], x[2], x[1]]
  {
    var a := [d, 'T', t];
    var b, c := DayStart(a), DayStart(a + "T00:00:");
    var x := ShortDates(at, d, t);
    var y := [x[3], x[0], x[1], x[2]];
    ShortDateOrder(a, b, a + "T00:00:");
    ShortDateKeys(at, d, t, a, b);
    ChainHolds(x, a, b, c);
    SortLastFirst(x, LexLeq, a, b, c);
    ShortDateKeysSorted(at, d, t, a, b, y);
    ChainHolds(y, a, b, c);
    SortLastThird(y, LexLeq, a, b, c);
  }
}
