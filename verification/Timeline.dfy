/**
 Index translation on the shared timeline (`api/project_access.py` and its callers).

 Journal entries are private, so a member sees a projection of the item list. Inserts,
 deletes and moves arrive as indices into that projection and are carried out on the
 full list, whose rows carry strictly increasing positions with gaps.
 */
module Timeline {
  import opened Wrappers

  type User = int

  /** A timeline item; `journal` names the journal entry a journal item holds. */
  datatype Item = Item(uid: string, journal: Option<int>)

  datatype Row = Row(position: int, item: Item)

  /** Who wrote each journal entry; None is a legacy entry of the project owner. */
  type Authors = map<int, Option<User>>

  function AuthorOf(authors: Authors, journal: int, owner: User): User {
    if journal in authors && authors[journal].Some? then authors[journal].value else owner
  }

  /** Whether `viewer` sees an item: everything but other members' journal entries. */
  predicate Visible(authors: Authors, owner: User, viewer: User, item: Item) {
    item.journal.None? || AuthorOf(authors, item.journal.value, owner) == viewer
  }

  function Sight(authors: Authors, owner: User, viewer: User): Item -> bool {
    item => Visible(authors, owner, viewer, item)
  }

  /** Everything but journal entries is seen by everybody, and a journal entry by exactly one
      member: its author, or the owner if none is recorded. */
  lemma WhoSees(authors: Authors, owner: User, viewer: User, uid: string, journal: int)
    ensures Visible(authors, owner, viewer, Item(uid, None))
    ensures Get(authors, journal).Some? && authors[journal].Some? ==>
              (Visible(authors, owner, viewer, Item(uid, Some(journal))) <==> viewer == authors[journal].value)
    ensures Get(authors, journal).None? || authors[journal].None? ==>
              (Visible(authors, owner, viewer, Item(uid, Some(journal))) <==> viewer == owner)
  {
  }

  // ------------------------------------------------------------- the projection

  /** The sub-list a member sees. */
  function Seen<T>(s: seq<T>, see: T -> bool): seq<T> {
    if s == [] then [] else (if see(s[0]) then [s[0]] else []) + Seen(s[1..], see)
  }

  /** The positions, from `k` on, of the visible elements of the full list. */
  function PositionsFrom<T>(s: seq<T>, see: T -> bool, k: nat): (p: seq<int>)
    requires k <= |s|
    ensures forall i :: 0 <= i < |p| ==> k <= p[i] < |s|
    decreases |s| - k
  {
    if k == |s| then [] else (if see(s[k]) then [k] else []) + PositionsFrom(s, see, k + 1)
  }

  function Positions<T>(s: seq<T>, see: T -> bool): seq<int> {
    PositionsFrom(s, see, 0)
  }

  method VisiblePositions(items: seq<Item>, authors: Authors, caller: User, owner: User) returns (positions: seq<int>)
    ensures positions == Positions(items, Sight(authors, owner, caller))
  {
    positions := [];
    ghost var see := Sight(authors, owner, caller);
    for pos := 0 to |items|
      invariant positions + PositionsFrom(items, see, pos) == Positions(items, see)
    {
      ghost var rest := PositionsFrom(items, see, pos + 1);
      Regroup(positions, pos, rest);
      if items[pos].journal.Some? {
        if AuthorOf(authors, items[pos].journal.value, owner) != caller {
          continue;
        }
      }
      positions := positions + [pos];
    }
  }

  lemma {:induction false} SeenConcat<T>(a: seq<T>, b: seq<T>, see: T -> bool)
    ensures Seen(a + b, see) == Seen(a, see) + Seen(b, see)
  {
    if a == [] {
      assert a + b == b;
      assert [] + Seen(b, see) == Seen(b, see);
    } else {
      var first := if see(a[0]) then [a[0]] else [];
      calc {
        Seen(a + b, see);
        { assert (a + b)[0] == a[0] && (a + b)[1..] == a[1..] + b; }
        first + Seen(a[1..] + b, see);
        { SeenConcat(a[1..], b, see); }
        first + (Seen(a[1..], see) + Seen(b, see));
        { Assoc(first, Seen(a[1..], see), Seen(b, see)); }
        Seen(a, see) + Seen(b, see);
      }
    }
  }

  /** A visible element splits what is seen into what is seen before it, itself, and after. */
  lemma SeenAround<T>(s: seq<T>, see: T -> bool, p: nat)
    requires p < |s|
    ensures Seen(s, see) == Seen(s[..p], see) + (if see(s[p]) then [s[p]] else []) + Seen(s[p + 1..], see)
  {
    assert s == s[..p] + s[p..];
    SeenConcat(s[..p], s[p..], see);
    assert s[p..][1..] == s[p + 1..];
  }

  /** The i-th visible position is where i elements are seen before it. */
  lemma {:induction false} PositionCuts<T>(s: seq<T>, see: T -> bool, k: nat, i: nat)
    requires k <= |s| && i < |PositionsFrom(s, see, k)|
    ensures var p := PositionsFrom(s, see, k)[i];
            k <= p < |s| && see(s[p]) && |Seen(s[k..p], see)| == i
    decreases |s| - k
  {
    var p := PositionsFrom(s, see, k)[i];
    var here := if see(s[k]) then 1 else 0;
    if i >= here {
      PositionCuts(s, see, k + 1, i - here);
      assert s[k..p][1..] == s[k + 1..p];
    }
  }

  lemma {:induction false} SameLength<T>(s: seq<T>, see: T -> bool, k: nat)
    requires k <= |s|
    ensures |PositionsFrom(s, see, k)| == |Seen(s[k..], see)|
    decreases |s| - k
  {
    if k < |s| {
      assert s[k..][1..] == s[k + 1..];
      SameLength(s, see, k + 1);
    }
  }

  /** Cutting the full list at the i-th visible position cuts the member's list at i. */
  lemma SplitAtPosition<T>(s: seq<T>, see: T -> bool, i: nat)
    requires i < |Positions(s, see)|
    ensures var p := Positions(s, see)[i];
            && p < |s| && see(s[p]) && |Seen(s[..p], see)| == i
            && Seen(s, see) == Seen(s[..p], see) + [s[p]] + Seen(s[p + 1..], see)
  {
    var p := Positions(s, see)[i];
    PositionCuts(s, see, 0, i);
    assert s[0..p] == s[..p];
    SeenAround(s, see, p);
  }

  // -------------------------------------------------------------------- inserting

  function TranslateInsertAfter(visible: seq<int>, after: Option<int>, total: int): int {
    if after.None? || after.value >= |visible| then total
    else if after.value < 0 then 0
    else visible[after.value] + 1
  }

  function RowPositionForIndex(rows: seq<Row>, index: int): int
    requires 0 <= index
  {
    if index >= |rows| then (if rows != [] then rows[|rows| - 1].position + 1 else 0)
    else rows[index].position
  }

  /** The slot a plain list insert would use: max(0, min(n, after + 1)), or the end. */
  function ClampedSlot(after: Option<int>, n: nat): (slot: nat)
    ensures slot <= n
  {
    if after.None? || after.value + 1 > n then n
    else if after.value + 1 < 0 then 0
    else after.value + 1
  }

  /** The translated index splits the caller's list exactly at the clamped slot. */
  lemma TranslationSplits<T>(s: seq<T>, see: T -> bool, after: Option<int>)
    ensures var at := TranslateInsertAfter(Positions(s, see), after, |s|);
            && 0 <= at <= |s|
            && Seen(s, see) == Seen(s[..at], see) + Seen(s[at..], see)
            && |Seen(s[..at], see)| == ClampedSlot(after, |Seen(s, see)|)
  {
    var visible := Positions(s, see);
    SameLength(s, see, 0);
    assert s[0..] == s;
    if after.Some? && 0 <= after.value < |visible| {
      SplitAfterPosition(s, see, after.value);
    } else {
      assert s[..|s|] == s && s[|s|..] == [] && s[..0] == [];
    }
  }

  /** The translated index is right behind the element it is to follow, hidden ones or not. */
  lemma TranslationFollows<T>(s: seq<T>, see: T -> bool, after: Option<int>)
    ensures var at, v := TranslateInsertAfter(Positions(s, see), after, |s|), Seen(s, see);
            if after.None? || after.value >= |v| then at == |s|
            else if after.value < 0 then at == 0
            else 0 < at <= |s| && s[at - 1] == v[after.value] && |Seen(s[..at - 1], see)| == after.value
  {
    SameLength(s, see, 0);
    assert s[0..] == s;
    if after.Some? && 0 <= after.value < |Positions(s, see)| {
      SplitAtPosition(s, see, after.value);
    }
  }

  lemma SplitAfterPosition<T>(s: seq<T>, see: T -> bool, i: nat)
    requires i < |Positions(s, see)|
    ensures var at := Positions(s, see)[i] + 1;
            && 0 <= at <= |s| && |Seen(s[..at], see)| == i + 1
            && Seen(s, see) == Seen(s[..at], see) + Seen(s[at..], see)
  {
    var p := Positions(s, see)[i];
    SplitAtPosition(s, see, i);
    assert s[..p + 1] == s[..p] + [s[p]];
    SeenConcat(s[..p], [s[p]], see);
    SeenOne(s[p], see);
  }

  lemma Halves<T>(v: seq<T>, a: seq<T>, b: seq<T>)
    requires v == a + b
    ensures v[..|a|] == a && v[|a|..] == b
  {
  }

  function Items(rows: seq<Row>): (items: seq<Item>)
    ensures |items| == |rows| && forall i :: 0 <= i < |rows| ==> items[i] == rows[i].item
  {
    seq(|rows|, i requires 0 <= i < |rows| => rows[i].item)
  }

  ghost predicate Increasing(rows: seq<Row>) {
    forall i, j :: 0 <= i < j < |rows| ==> rows[i].position < rows[j].position
  }

  /** `rows` is what reading the item table ordered by position returns. */
  ghost predicate Lists(rows: seq<Row>, table: set<Row>) {
    Increasing(rows) && (set r | r in rows) == table
  }

  lemma EmptyReading(rows: seq<Row>, table: set<Row>)
    requires Lists(rows, table)
    ensures rows == [] <==> table == {}
  {
    if rows != [] { assert rows[0] in table; }
  }

  /** Positions being distinct, a table has only one such reading. */
  lemma {:induction false} ReadingUnique(a: seq<Row>, b: seq<Row>, table: set<Row>)
    requires Lists(a, table) && Lists(b, table)
    ensures a == b
    decreases |a|
  {
    EmptyReading(a, table);
    EmptyReading(b, table);
    if a != [] {
      assert a[0] in table;
      assert a[0] in b;
      var j :| 0 <= j < |b| && b[j] == a[0];
      assert b[0] in table;
      assert b[0] in a;
      var i :| 0 <= i < |a| && a[i] == b[0];
      assert i == 0 && j == 0;
      assert a == [a[0]] + a[1..] && b == [b[0]] + b[1..];
      var rest := table - {a[0]};
      assert Lists(a[1..], rest) && Lists(b[1..], rest);
      ReadingUnique(a[1..], b[1..], rest);
    }
  }

  function Bump(r: Row, from: int): Row {
    if r.position >= from then r.(position := r.position + 1) else r
  }

  function BumpAll(rows: seq<Row>, from: int): (r: seq<Row>)
    ensures |r| == |rows| && forall i :: 0 <= i < |rows| ==> r[i] == Bump(rows[i], from)
  {
    seq(|rows|, i requires 0 <= i < |rows| => Bump(rows[i], from))
  }

  function WithRowAt(rows: seq<Row>, at: nat, item: Item): seq<Row>
    requires at <= |rows|
  {
    var pos := RowPositionForIndex(rows, at);
    var bumped := BumpAll(rows, pos);
    bumped[..at] + [Row(pos, item)] + bumped[at..]
  }

  lemma RowAt(rows: seq<Row>, at: nat, item: Item, i: nat)
    requires Increasing(rows) && at <= |rows| && i <= |rows|
    ensures |WithRowAt(rows, at, item)| == |rows| + 1
    ensures WithRowAt(rows, at, item)[i]
         == if i < at then rows[i] else if i == at then Row(RowPositionForIndex(rows, at), item)
            else rows[i - 1].(position := rows[i - 1].position + 1)
  {
    if i < at && at < |rows| { assert rows[i].position < rows[at].position; }
    if i < at && at == |rows| && i < |rows| - 1 { assert rows[i].position < rows[|rows| - 1].position; }
    if at < i - 1 { assert rows[at].position < rows[i - 1].position; }
  }

  /** Opening a slot keeps positions strictly increasing, whatever gaps they have. */
  lemma SlotOpens(rows: seq<Row>, at: nat, item: Item)
    requires Increasing(rows) && at <= |rows|
    ensures Increasing(WithRowAt(rows, at, item))
  {
    var r := WithRowAt(rows, at, item);
    forall i, j | 0 <= i < j < |r| ensures r[i].position < r[j].position {
      RowAt(rows, at, item, i);
      RowAt(rows, at, item, j);
      if i < at && at <= j && at < |rows| { assert rows[i].position < rows[at].position; }
      if i < at && at == |rows| && i < |rows| - 1 { assert rows[i].position < rows[|rows| - 1].position; }
    }
  }

  /** The new item lands at list index `at`, every other item keeps its order. */
  lemma SlotHoldsItem(rows: seq<Row>, at: nat, item: Item)
    requires Increasing(rows) && at <= |rows|
    ensures Items(WithRowAt(rows, at, item)) == Items(rows)[..at] + [item] + Items(rows)[at..]
  {
    var r := WithRowAt(rows, at, item);
    forall i | 0 <= i < |r| ensures Items(r)[i] == (Items(rows)[..at] + [item] + Items(rows)[at..])[i] {
      RowAt(rows, at, item, i);
    }
  }

  /** Positions without gaps, as a structural save numbers them. */
  ghost predicate Dense(rows: seq<Row>) {
    forall i :: 0 <= i < |rows| ==> rows[i].position == i
  }

  /** An insert opens no gap. */
  lemma SlotKeepsDense(rows: seq<Row>, at: nat, item: Item)
    requires Dense(rows) && at <= |rows|
    ensures Dense(WithRowAt(rows, at, item))
  {
    forall i | 0 <= i <= |rows| ensures WithRowAt(rows, at, item)[i].position == i {
      RowAt(rows, at, item, i);
    }
  }

  /** The item rows of one project. The table is unordered; reads order it by position, and each
      method starts from the ordered read and says which one it leaves. */
  class ItemTable {
    var table: set<Row>

    /** The insert of `create_memory` and `create_journal`: `rows` is the ordered read. */
    method InsertAfter(rows: seq<Row>, authors: Authors, caller: User, owner: User, after: Option<int>, item: Item)
      requires Lists(rows, table)
      modifies this
      ensures var at := TranslateInsertAfter(Positions(Items(rows), Sight(authors, owner, caller)), after, |rows|);
              0 <= at <= |rows| && Lists(WithRowAt(rows, at, item), table)
    {
      var visible := VisiblePositions(Items(rows), authors, caller, owner);
      var at := TranslateInsertAfter(visible, after, |rows|);
      TranslationSplits(Items(rows), Sight(authors, owner, caller), after);
      var pos := RowPositionForIndex(rows, at);
      var items := rows;
      for i := 0 to |items|
        invariant |items| == |rows|
        invariant forall j :: 0 <= j < i ==> items[j] == Bump(rows[j], pos)
        invariant forall j :: i <= j < |items| ==> items[j] == rows[j]
      {
        if items[i].position >= pos {
          items := items[i := items[i].(position := items[i].position + 1)];
        }
      }
      assert items == BumpAll(rows, pos);
      table := (set r | r in items) + {Row(pos, item)};
      SlotOpens(rows, at, item);
      SplitMembers(items, at, Row(pos, item));
    }

    /** `delete_segment_row`: a row holding the item goes, if there is one; no other row is
        renumbered, and the ordered read of them stays as it was. */
    method DeleteRow(uid: string, ghost rows: seq<Row>) returns (found: bool)
      requires Lists(rows, table)
      modifies this
      ensures found <==> exists r :: r in old(table) && r.item.uid == uid
      ensures !found ==> table == old(table)
      ensures found ==>
                exists k :: 0 <= k < |rows| && rows[k].item.uid == uid && Lists(rows[..k] + rows[k + 1..], table)
    {
      found := false;
      if row :| row in table && row.item.uid == uid {
        found := true;
        assert row in rows;
        ghost var k :| 0 <= k < |rows| && rows[k] == row;
        GapLeavesOrder(rows, table, k);
        table := table - {row};
      }
    }
  }

  lemma SplitMembers(rows: seq<Row>, at: nat, row: Row)
    requires at <= |rows|
    ensures (set r | r in rows[..at] + [row] + rows[at..]) == (set r | r in rows) + {row}
  {
    assert rows == rows[..at] + rows[at..];
    assert forall r :: r in rows <==> r in rows[..at] || r in rows[at..];
  }

  lemma GapMembers(rows: seq<Row>, k: nat, x: Row)
    requires Increasing(rows) && k < |rows|
    ensures x in rows[..k] + rows[k + 1..] <==> x in rows && x != rows[k]
  {
    var r := rows[..k] + rows[k + 1..];
    if x in r {
      var i :| 0 <= i < |r| && r[i] == x;
      assert x == rows[if i < k then i else i + 1];
    }
    if x in rows && x != rows[k] {
      var i :| 0 <= i < |rows| && rows[i] == x;
      assert r[if i < k then i else i - 1] == x;
    }
  }

  /** Dropping a row leaves the read of the others as it was, gap included. */
  lemma GapLeavesOrder(rows: seq<Row>, table: set<Row>, k: nat)
    requires Lists(rows, table) && k < |rows|
    ensures Lists(rows[..k] + rows[k + 1..], table - {rows[k]})
  {
    var r := rows[..k] + rows[k + 1..];
    forall x ensures x in r <==> x in table - {rows[k]} {
      GapMembers(rows, k, x);
      assert x in table <==> x in rows;
    }
  }

  /** An insert by visible index, seen by its caller, is a clamped list insert. */
  lemma InsertRefinesListInsert(
      rows: seq<Row>, authors: Authors, owner: User, caller: User, after: Option<int>, item: Item)
    requires Increasing(rows) && Visible(authors, owner, caller, item)
    ensures var see := Sight(authors, owner, caller);
            var v := Seen(Items(rows), see);
            var at := TranslateInsertAfter(Positions(Items(rows), see), after, |rows|);
            var slot := ClampedSlot(after, |v|);
            0 <= at <= |rows|
            && Seen(Items(WithRowAt(rows, at, item)), see) == v[..slot] + [item] + v[slot..]
  {
    var see := Sight(authors, owner, caller);
    TranslationSplits(Items(rows), see, after);
    var at := TranslateInsertAfter(Positions(Items(rows), see), after, |rows|);
    InsertSeenBy(rows, at, item, see);
    Halves(Seen(Items(rows), see), Seen(Items(rows)[..at], see), Seen(Items(rows)[at..], see));
  }

  lemma InsertSeenBy(rows: seq<Row>, at: nat, item: Item, see: Item -> bool)
    requires Increasing(rows) && at <= |rows|
    ensures Seen(Items(WithRowAt(rows, at, item)), see)
         == Seen(Items(rows)[..at], see) + (if see(item) then [item] else []) + Seen(Items(rows)[at..], see)
  {
    SlotHoldsItem(rows, at, item);
    SeenConcat(Items(rows)[..at] + [item], Items(rows)[at..], see);
    SeenConcat(Items(rows)[..at], [item], see);
  }

  lemma {:induction false} SightAgrees(items: seq<Item>, see: Item -> bool, see': Item -> bool)
    requires forall i :: 0 <= i < |items| ==> see(items[i]) == see'(items[i])
    ensures Seen(items, see) == Seen(items, see')
  {
    if items != [] {
      SightAgrees(items[1..], see, see');
    }
  }

  /** A new journal entry of `author` leaves every other member's list as it was. */
  lemma PrivateInsertUnseen(rows: seq<Row>, authors: Authors, owner: User, author: User, viewer: User,
                            at: nat, uid: string, journal: int)
    requires Increasing(rows) && at <= |rows| && viewer != author
    requires forall r :: r in rows ==> r.item.journal != Some(journal)
    ensures var authors' := authors[journal := Some(author)];
            Seen(Items(WithRowAt(rows, at, Item(uid, Some(journal)))), Sight(authors', owner, viewer))
            == Seen(Items(rows), Sight(authors, owner, viewer))
  {
    var see := Sight(authors, owner, viewer);
    var see' := Sight(authors[journal := Some(author)], owner, viewer);
    var item, items := Item(uid, Some(journal)), Items(rows);
    forall i | 0 <= i < |items| ensures see(items[i]) == see'(items[i]) {
      assert rows[i] in rows;
    }
    SightAgrees(items, see, see');
    assert !see'(item);
    SlotHoldsItem(rows, at, item);
    Slipped(items, at, item, see');
  }

  /** An element nobody sees changes nothing for them, wherever it is put. */
  lemma Slipped<T>(s: seq<T>, at: nat, x: T, see: T -> bool)
    requires at <= |s| && !see(x)
    ensures Seen(s[..at] + [x] + s[at..], see) == Seen(s, see)
  {
    var a, b := s[..at], s[at..];
    assert s == a + b;
    UnseenBetween(a, x, b, see);
  }

  // --------------------------------------------------------- deleting and moving

  /** `delete_item`: None is the answer to an index outside the caller's list. */
  function DeleteAt(items: seq<Item>, see: Item -> bool, index: int): Option<seq<Item>> {
    var visible := Positions(items, see);
    if index < 0 || index >= |visible| then None
    else Some(items[..visible[index]] + items[visible[index] + 1..])
  }

  /** A delete by visible index succeeds exactly inside the caller's list and removes that
      item from it; every other member loses that same item, or nothing if they cannot see it. */
  lemma DeleteRemovesThatItem(items: seq<Item>, see: Item -> bool, other: Item -> bool, index: int)
    ensures DeleteAt(items, see, index).Some? <==> 0 <= index < |Seen(items, see)|
    ensures DeleteAt(items, see, index).Some? ==>
              var v, items' := Seen(items, see), DeleteAt(items, see, index).value;
              Seen(items', see) == v[..index] + v[index + 1..]
    ensures DeleteAt(items, see, index).Some? ==>
              var gone, k := Seen(items, see)[index], Positions(items, see)[index];
              var before, after := Seen(items[..k], other), Seen(items[k + 1..], other);
              && Seen(items, other) == before + (if other(gone) then [gone] else []) + after
              && Seen(DeleteAt(items, see, index).value, other) == before + after
  {
    SameLength(items, see, 0);
    assert items[0..] == items;
    if 0 <= index < |Positions(items, see)| {
      var k := Positions(items, see)[index];
      SplitAtPosition(items, see, index);
      SeenConcat(items[..k], items[k + 1..], see);
      CutOut(Seen(items, see), Seen(items[..k], see), items[k], Seen(items[k + 1..], see));
      SeenConcat(items[..k], items[k + 1..], other);
      SeenAround(items, other, k);
    }
  }

  lemma CutOut<T>(v: seq<T>, a: seq<T>, x: T, b: seq<T>)
    requires v == a + [x] + b
    ensures v[|a|] == x && v[..|a|] + v[|a| + 1..] == a + b
  {
  }

  /** `move_item`: take the element at `from` out and put it back at index `to`. */
  function Moved<T>(s: seq<T>, from: int, to: int): seq<T>
    requires 0 <= from < |s| && 0 <= to < |s|
  {
    var rest := s[..from] + s[from + 1..];
    rest[..to] + [s[from]] + rest[to..]
  }

  function Clamped(to: int, n: nat): (r: int)
    requires n > 0
    ensures 0 <= r < n && (0 <= to < n ==> r == to)
  {
    if to < 0 then 0 else if to >= n then n - 1 else to
  }

  function MoveVisible(items: seq<Item>, see: Item -> bool, from: int, to: int): seq<Item> {
    var visible := Positions(items, see);
    if 0 <= from < |visible| then Moved(items, visible[from], visible[Clamped(to, |visible|)]) else items
  }

  lemma MovedForward<T>(a: seq<T>, x: T, b: seq<T>, y: T, c: seq<T>)
    ensures Moved(a + [x] + b + [y] + c, |a|, |a| + 1 + |b|) == a + b + [y] + [x] + c
  {
    var s := a + [x] + b + [y] + c;
    assert s[..|a|] + s[|a| + 1..] == a + b + [y] + c;
  }

  lemma MovedBack<T>(a: seq<T>, x: T, b: seq<T>, y: T, c: seq<T>)
    ensures Moved(a + [x] + b + [y] + c, |a| + 1 + |b|, |a|) == a + [y] + [x] + b + c
  {
    var s, to := a + [x] + b + [y] + c, |a| + 1 + |b|;
    assert s[..to] + s[to + 1..] == a + [x] + b + c;
  }

  /** Two visible positions cut the full list into five parts and the member's list alike. */
  lemma CutAtTwo<T>(s: seq<T>, see: T -> bool, i: nat, j: nat) returns (a: seq<T>, x: T, b: seq<T>, y: T, c: seq<T>)
    requires i < j < |Positions(s, see)|
    ensures s == a + [x] + b + [y] + c && see(x) && see(y)
    ensures |a| == Positions(s, see)[i] && |a| + 1 + |b| == Positions(s, see)[j]
    ensures |Seen(a, see)| == i && |Seen(b, see)| == j - i - 1
  {
    var p, q := Positions(s, see)[i], Positions(s, see)[j];
    PositionsIncrease(s, see, 0, i, j);
    PositionCuts(s, see, 0, i);
    PositionCuts(s, see, 0, j);
    a, x, b, y, c := s[..p], s[p], s[p + 1..q], s[q], s[q + 1..];
    assert s[0..p] == a;
    assert s[0..q] == a + [x] + b;
    SeenConcat(a + [x], b, see);
    SeenConcat(a, [x], see);
  }

  lemma {:induction false} PositionsIncrease<T>(s: seq<T>, see: T -> bool, k: nat, i: nat, j: nat)
    requires k <= |s| && i < j < |PositionsFrom(s, see, k)|
    ensures PositionsFrom(s, see, k)[i] < PositionsFrom(s, see, k)[j]
    decreases |s| - k
  {
    var here := if see(s[k]) then 1 else 0;
    if i >= here {
      PositionsIncrease(s, see, k + 1, i - here, j - here);
    }
  }

  lemma SeenFive<T>(a: seq<T>, b: seq<T>, c: seq<T>, d: seq<T>, e: seq<T>, see: T -> bool)
    ensures Seen(a + b + c + d + e, see) == Seen(a, see) + Seen(b, see) + Seen(c, see) + Seen(d, see) + Seen(e, see)
  {
    SeenConcat(a + b + c + d, e, see);
    SeenConcat(a + b + c, d, see);
    SeenConcat(a + b, c, see);
    SeenConcat(a, b, see);
  }

  lemma SeenOne<T>(x: T, see: T -> bool)
    ensures Seen([x], see) == if see(x) then [x] else []
  {
  }

  lemma MoveForwardSeen<T>(a: seq<T>, x: T, b: seq<T>, y: T, c: seq<T>, see: T -> bool)
    requires see(x) && see(y)
    ensures var s := a + [x] + b + [y] + c;
            var v := Seen(s, see);
            var i, j := |Seen(a, see)|, |Seen(a, see)| + 1 + |Seen(b, see)|;
            j < |v| && Seen(Moved(s, |a|, |a| + 1 + |b|), see) == Moved(v, i, j)
  {
    SeenOne(x, see);
    SeenOne(y, see);
    SeenFive(a, [x], b, [y], c, see);
    SeenFive(a, b, [y], [x], c, see);
    MovedForward(a, x, b, y, c);
    MovedForward(Seen(a, see), x, Seen(b, see), y, Seen(c, see));
  }

  lemma MoveBackSeen<T>(a: seq<T>, x: T, b: seq<T>, y: T, c: seq<T>, see: T -> bool)
    requires see(x) && see(y)
    ensures var s := a + [x] + b + [y] + c;
            var v := Seen(s, see);
            var i, j := |Seen(a, see)|, |Seen(a, see)| + 1 + |Seen(b, see)|;
            j < |v| && Seen(Moved(s, |a| + 1 + |b|, |a|), see) == Moved(v, j, i)
  {
    SeenOne(x, see);
    SeenOne(y, see);
    SeenFive(a, [x], b, [y], c, see);
    SeenFive(a, [y], [x], b, c, see);
    MovedBack(a, x, b, y, c);
    MovedBack(Seen(a, see), x, Seen(b, see), y, Seen(c, see));
  }

  /** A move by visible indices is the same move on the caller's own list: to the nearest index
      of that list, and no move at all from an index outside it. */
  lemma MoveRefinesListMove(items: seq<Item>, see: Item -> bool, from: int, to: int)
    ensures var v := Seen(items, see);
            Seen(MoveVisible(items, see, from, to), see)
            == if 0 <= from < |v| then Moved(v, from, Clamped(to, |v|)) else v
  {
    SameLength(items, see, 0);
    assert items[0..] == items;
    if 0 <= from < |Seen(items, see)| {
      MoveInside(items, see, from, Clamped(to, |Seen(items, see)|));
    }
  }

  lemma MoveInside(items: seq<Item>, see: Item -> bool, from: nat, to: nat)
    requires |Positions(items, see)| == |Seen(items, see)| && from < |Seen(items, see)| && to < |Seen(items, see)|
    ensures Seen(Moved(items, Positions(items, see)[from], Positions(items, see)[to]), see)
         == Moved(Seen(items, see), from, to)
  {
    if from < to {
      MoveDown(items, see, from, to);
    } else if to < from {
      MoveUp(items, see, from, to);
    } else {
      MovedNowhere(items, Positions(items, see)[from]);
      MovedNowhere(Seen(items, see), from);
    }
  }

  lemma MoveDown(items: seq<Item>, see: Item -> bool, from: nat, to: nat)
    requires from < to < |Positions(items, see)| && to < |Seen(items, see)|
    ensures Seen(Moved(items, Positions(items, see)[from], Positions(items, see)[to]), see)
         == Moved(Seen(items, see), from, to)
  {
    var a, x, b, y, c := CutAtTwo(items, see, from, to);
    MoveForwardSeen(a, x, b, y, c, see);
  }

  lemma MoveUp(items: seq<Item>, see: Item -> bool, from: nat, to: nat)
    requires to < from < |Positions(items, see)| && from < |Seen(items, see)|
    ensures Seen(Moved(items, Positions(items, see)[from], Positions(items, see)[to]), see)
         == Moved(Seen(items, see), from, to)
  {
    var a, x, b, y, c := CutAtTwo(items, see, to, from);
    MoveBackSeen(a, x, b, y, c, see);
  }

  lemma MovedNowhere<T>(s: seq<T>, at: nat)
    requires at < |s|
    ensures Moved(s, at, at) == s
  {
  }

  /** A member who cannot see the moved item sees no change. */
  lemma MoveUnseenByOthers(items: seq<Item>, see: Item -> bool, other: Item -> bool, from: int, to: int)
    requires 0 <= from < |Seen(items, see)| && !other(Seen(items, see)[from])
    ensures Seen(MoveVisible(items, see, from, to), other) == Seen(items, other)
  {
    SameLength(items, see, 0);
    assert items[0..] == items;
    var visible := Positions(items, see);
    SplitAtPosition(items, see, from);
    assert Seen(items, see)[from] == items[visible[from]];
    MovedUnseen(items, visible[from], visible[Clamped(to, |visible|)], other);
  }

  lemma MovedUnseen<T>(s: seq<T>, p: nat, q: nat, see: T -> bool)
    requires p < |s| && q < |s| && !see(s[p])
    ensures Seen(Moved(s, p, q), see) == Seen(s, see)
  {
    var x := s[p];
    var rest := s[..p] + s[p + 1..];
    assert s == s[..p] + [x] + s[p + 1..];
    UnseenBetween(s[..p], x, s[p + 1..], see);
    Slipped(rest, q, x, see);
  }

  lemma UnseenBetween<T>(a: seq<T>, x: T, b: seq<T>, see: T -> bool)
    requires !see(x)
    ensures Seen(a + [x] + b, see) == Seen(a + b, see)
  {
    SeenOne(x, see);
    SeenConcat(a + [x], b, see);
    SeenConcat(a, [x], see);
    SeenConcat(a, b, see);
  }
}
