/**
 Threaded comments (`api/memories.py`): adding replies, the breadth-first delete of a
 comment with everything below it, and the tree built from the flat rows.
 */
module Comments {
  import opened Wrappers

  type Id = nat

  datatype Comment = Comment(memory: int, parent: Option<Id>, text: string)

  type Rows = map<Id, Comment>

  /** A reply names an existing, older comment of the same memory. */
  ghost predicate Forest(rows: Rows) {
    forall id :: id in rows && rows[id].parent.Some? ==>
      var p := rows[id].parent.value;
      p in rows && p < id && rows[p].memory == rows[id].memory
  }

  /** `x` is `root` or a reply somewhere below it. */
  predicate Under(rows: Rows, x: Id, root: Id)
    decreases x
  {
    x == root
    || (x in rows && rows[x].parent.Some? && rows[x].parent.value < x && Under(rows, rows[x].parent.value, root))
  }

  lemma {:induction false} UnderIsNewer(rows: Rows, x: Id, root: Id)
    requires Under(rows, x, root)
    ensures root <= x
    decreases x
  {
    if x != root { UnderIsNewer(rows, rows[x].parent.value, root); }
  }

  /** What is left once nothing has a missing parent and the root is gone is not below the root. */
  lemma {:induction false} LeftIsNotUnder(all: Rows, left: Rows, x: Id, root: Id)
    requires Forest(all) && root !in left && x in left
    requires forall y :: y in left ==> y in all && left[y] == all[y]
    requires forall y :: y in left && left[y].parent.Some? ==> left[y].parent.value in left
    ensures !Under(all, x, root)
    decreases x
  {
    if all[x].parent.Some? { LeftIsNotUnder(all, left, all[x].parent.value, root); }
  }

  class CommentTable {
    var rows: Rows
    var nextId: Id

    ghost predicate Valid()
      reads this
    {
      Forest(rows) && forall id :: id in rows ==> id < nextId
    }

    constructor ()
      ensures Valid() && rows == map[]
    {
      rows, nextId := map[], 0;
    }

    /** `add_comment`; None is the answer to a parent that is missing or of another memory. */
    method Add(memory: int, parent: Option<Id>, text: string) returns (id: Option<Id>)
      requires Valid()
      modifies this
      ensures Valid()
      ensures id.None? <==> parent.Some? && (parent.value !in old(rows) || old(rows)[parent.value].memory != memory)
      ensures id.None? ==> rows == old(rows)
      ensures id.Some? ==> id.value !in old(rows) && rows == old(rows)[id.value := Comment(memory, parent, text)]
    {
      if parent.Some? && (parent.value !in rows || rows[parent.value].memory != memory) {
        return None;
      }
      id := Some(nextId);
      rows := rows[nextId := Comment(memory, parent, text)];
      nextId := nextId + 1;
    }

    /** `_delete_comment_subtree`: exactly the comment and its descendants go, and no reply is
        left without its parent. */
    method DeleteSubtree(root: Id)
      requires Valid()
      modifies this`rows
      ensures Valid()
      ensures forall x :: x in rows <==> x in old(rows) && !Under(old(rows), x, root)
      ensures forall x :: x in rows ==> rows[x] == old(rows)[x]
    {
      ghost var all := rows;
      var queue := [root];
      while queue != []
        invariant Progress(all, rows, queue, root)
        decreases |rows|, |queue|
      {
        var current := queue[0];
        var children := set x | x in rows && rows[x].parent == Some(current);
        var left, queue' := TakeOut(rows, queue[1..], children);
        Round(all, rows, queue, root, children, left - {current}, queue');
        AfterOne(rows, queue, children, left - {current}, queue');
        rows, queue := left - {current}, queue';
      }
      Finished(all, rows, root);
    }
  }

  /** The state of the breadth-first delete: only comments under the root are gone, only such
      comments are queued, and a comment still there has its parent there or queued. */
  ghost predicate Progress(all: Rows, rows: Rows, queue: seq<Id>, root: Id) {
    && (forall x :: x in rows ==> x in all && rows[x] == all[x])
    && (forall x :: x in all && x !in rows ==> Under(all, x, root))
    && (forall q :: q in queue ==> Under(all, q, root))
    && (forall x :: x in rows && rows[x].parent.Some? ==>
          rows[x].parent.value in rows || rows[x].parent.value in queue)
    && (root !in rows || root in queue)
  }

  lemma Round(all: Rows, rows: Rows, queue: seq<Id>, root: Id, children: set<Id>, rows': Rows, queue': seq<Id>)
    requires Forest(all) && Progress(all, rows, queue, root) && queue != []
    requires children == set x | x in rows && rows[x].parent == Some(queue[0])
    requires rows' == rows - children - {queue[0]}
    requires forall x :: x in queue' <==> x in queue[1..] || x in children
    ensures Progress(all, rows', queue', root)
  {
    var current := queue[0];
    assert current in queue;
    assert forall q :: q in queue <==> q == current || q in queue[1..];
    forall x | x in children ensures Under(all, x, root) {
      assert all[x].parent == Some(current);
    }
  }

  lemma Finished(all: Rows, rows: Rows, root: Id)
    requires Forest(all) && Progress(all, rows, [], root)
    ensures Forest(rows)
    ensures forall x :: x in rows <==> x in all && !Under(all, x, root)
  {
    forall x | x in rows ensures !Under(all, x, root) {
      LeftIsNotUnder(all, rows, x, root);
    }
  }

  /** The inner loop: every child is queued and its row deleted. */
  method TakeOut(rows: Rows, queue: seq<Id>, children: set<Id>) returns (rows': Rows, queue': seq<Id>)
    requires children <= rows.Keys
    ensures rows' == rows - children
    ensures forall x :: x in queue' <==> x in queue || x in children
    ensures children == {} ==> queue' == queue
  {
    rows', queue' := rows, queue;
    var left := children;
    while left != {}
      invariant left <= children && rows' == rows - (children - left)
      invariant forall x :: x in queue' <==> x in queue || x in children - left
      invariant children == {} ==> queue' == queue
    {
      var child :| child in left;
      queue' := queue' + [child];
      rows' := rows' - {child};
      left := left - {child};
      assert rows' == rows - (children - left);
    }
    assert children - left == children;
  }

  /** One round shrinks the table, or else only the queue. */
  lemma AfterOne(before: Rows, waiting: seq<Id>, children: set<Id>, after: Rows, queue: seq<Id>)
    requires waiting != [] && children <= before.Keys && after == before - children - {waiting[0]}
    requires children == {} ==> queue == waiting[1..]
    ensures |after| <= |before|
    ensures |after| < |before| || |queue| < |waiting|
  {
    var gone := before.Keys * (children + {waiting[0]});
    assert after.Keys == before.Keys - gone;
    assert |after.Keys| == |before.Keys| - |gone|;
    if gone == {} {
      assert children == {} by {
        if c :| c in children { assert c in gone; }
      }
    }
  }

  // --------------------------------------------------------------------- the tree

  /** The replies to `parent`, in the order of the rows. */
  function RepliesTo(order: seq<Id>, rows: Rows, parent: Id): seq<Id> {
    if order == [] then []
    else (if order[0] in rows && rows[order[0]].parent == Some(parent) then [order[0]] else [])
         + RepliesTo(order[1..], rows, parent)
  }

  predicate IsTop(rows: Rows, x: Id) {
    x in rows && (rows[x].parent.None? || rows[x].parent.value !in rows)
  }

  /** The comments whose parent is not among the rows, in the order of the rows. */
  function Tops(order: seq<Id>, rows: Rows): seq<Id> {
    if order == [] then [] else (if IsTop(rows, order[0]) then [order[0]] else []) + Tops(order[1..], rows)
  }

  lemma {:induction false} RepliesMembers(order: seq<Id>, rows: Rows, parent: Id)
    ensures forall x :: x in RepliesTo(order, rows, parent)
                   <==> x in order && x in rows && rows[x].parent == Some(parent)
  {
    if order != [] {
      RepliesMembers(order[1..], rows, parent);
      assert order == [order[0]] + order[1..];
    }
  }

  lemma {:induction false} TopsMembers(order: seq<Id>, rows: Rows)
    ensures forall x :: x in Tops(order, rows) <==> x in order && IsTop(rows, x)
  {
    if order != [] {
      TopsMembers(order[1..], rows);
      assert order == [order[0]] + order[1..];
    }
  }

  /** The rows of a memory, read in some order. */
  ghost predicate Reads(order: seq<Id>, rows: Rows) {
    Distinct(order) && forall x :: x in order <==> x in rows
  }

  /** `_build_comment_tree`: a reply list per comment, and the list of top comments. */
  method BuildTree(order: seq<Id>, rows: Rows) returns (roots: seq<Id>, replies: map<Id, seq<Id>>)
    requires Reads(order, rows)
    ensures roots == Tops(order, rows)
    ensures replies.Keys == rows.Keys && forall p :: p in rows ==> replies[p] == RepliesTo(order, rows, p)
  {
    replies := map[];
    for i := 0 to |order|
      invariant forall x :: x in replies <==> x in order[..i]
      invariant forall x :: x in replies ==> replies[x] == []
    {
      replies := replies[order[i] := []];
    }
    assert order[..|order|] == order;
    roots := [];
    for i := 0 to |order|
      invariant Filled(order, rows, i, roots, replies)
    {
      var id := order[i];
      assert order[i] in order;
      if rows[id].parent.Some? && rows[id].parent.value in replies {
        FillAsReply(order, rows, i, roots, replies);
        replies := replies[rows[id].parent.value := replies[rows[id].parent.value] + [id]];
      } else {
        FillAsTop(order, rows, i, roots, replies);
        roots := roots + [id];
      }
    }
  }

  /** The lists hold the first `i` rows; the remaining rows complete them. */
  ghost predicate Filled(order: seq<Id>, rows: Rows, i: nat, roots: seq<Id>, replies: map<Id, seq<Id>>)
    requires i <= |order|
  {
    && replies.Keys == rows.Keys
    && roots + Tops(order[i..], rows) == Tops(order, rows)
    && forall p :: p in rows ==> Completes(order, rows, i, p, replies[p])
  }

  ghost predicate Completes(order: seq<Id>, rows: Rows, i: nat, p: Id, have: seq<Id>)
    requires i <= |order|
  {
    have + RepliesTo(order[i..], rows, p) == RepliesTo(order, rows, p)
  }

  lemma FillAsTop(order: seq<Id>, rows: Rows, i: nat, roots: seq<Id>, replies: map<Id, seq<Id>>)
    requires i < |order| && IsTop(rows, order[i]) && Filled(order, rows, i, roots, replies)
    ensures Filled(order, rows, i + 1, roots + [order[i]], replies)
  {
    FillTops(order, rows, i, roots);
    forall p | p in rows ensures Completes(order, rows, i + 1, p, replies[p]) {
      assert Completes(order, rows, i, p, replies[p]);
      FillReplies(order, rows, i, p, replies[p]);
    }
  }

  lemma FillAsReply(order: seq<Id>, rows: Rows, i: nat, roots: seq<Id>, replies: map<Id, seq<Id>>)
    requires i < |order| && order[i] in rows && !IsTop(rows, order[i]) && Filled(order, rows, i, roots, replies)
    ensures var q := rows[order[i]].parent.value;
            Filled(order, rows, i + 1, roots, replies[q := replies[q] + [order[i]]])
  {
    var q := rows[order[i]].parent.value;
    var replies' := replies[q := replies[q] + [order[i]]];
    FillTops(order, rows, i, roots);
    forall p | p in rows ensures Completes(order, rows, i + 1, p, replies'[p]) {
      assert Completes(order, rows, i, p, replies[p]);
      FillReplies(order, rows, i, p, replies[p]);
    }
  }

  lemma FillTops(order: seq<Id>, rows: Rows, i: nat, have: seq<Id>)
    requires i < |order| && have + Tops(order[i..], rows) == Tops(order, rows)
    ensures (if IsTop(rows, order[i]) then have + [order[i]] else have) + Tops(order[i + 1..], rows)
         == Tops(order, rows)
  {
    assert order[i..][1..] == order[i + 1..];
    Regroup(have, order[i], Tops(order[i + 1..], rows));
  }

  lemma FillReplies(order: seq<Id>, rows: Rows, i: nat, p: Id, have: seq<Id>)
    requires i < |order| && order[i] in rows && Completes(order, rows, i, p, have)
    ensures Completes(order, rows, i + 1, p, if rows[order[i]].parent == Some(p) then have + [order[i]] else have)
  {
    assert order[i..][1..] == order[i + 1..];
    Regroup(have, order[i], RepliesTo(order[i + 1..], rows, p));
  }

  /** Every id below `bound`, every reply newer than what it replies to. */
  ghost predicate Bounded(rows: Rows, bound: nat) {
    forall x :: x in rows ==> x < bound && (rows[x].parent.Some? ==> rows[x].parent.value < x)
  }

  /** The comments of the trees rooted at `list`, each before its replies: what a reader sees. */
  ghost function Shown(order: seq<Id>, rows: Rows, bound: nat, above: int, list: seq<Id>): seq<Id>
    requires Bounded(rows, bound) && above <= bound
    requires forall x :: x in list ==> above < x < bound
    decreases bound - above, |list|
  {
    if list == [] then []
    else
      var x := list[0];
      RepliesMembers(order, rows, x);
      assert x in list && forall z :: z in list[1..] ==> z in list;
      [x] + Shown(order, rows, bound, x, RepliesTo(order, rows, x)) + Shown(order, rows, bound, above, list[1..])
  }

  /** How many comments of `list` have `y` at or below them. */
  ghost function Covers(rows: Rows, list: seq<Id>, y: Id): nat {
    if list == [] then 0 else (if Under(rows, y, list[0]) then 1 else 0) + Covers(rows, list[1..], y)
  }

  function Count(s: seq<Id>, y: Id): nat {
    if s == [] then 0 else (if s[0] == y then 1 else 0) + Count(s[1..], y)
  }

  lemma {:induction false} CountConcat(a: seq<Id>, b: seq<Id>, y: Id)
    ensures Count(a + b, y) == Count(a, y) + Count(b, y)
  {
    if a == [] {
      assert a + b == b;
    } else {
      assert (a + b)[1..] == a[1..] + b;
      CountConcat(a[1..], b, y);
    }
  }

  /** Covering agrees step by step with a comment's parent, once the comment itself is set aside. */
  lemma {:induction false} CoversParent(rows: Rows, list: seq<Id>, y: Id)
    requires y in rows && rows[y].parent.Some? && rows[y].parent.value < y
    ensures Covers(rows, list, y) == Covers(rows, list, rows[y].parent.value) + Count(list, y)
  {
    if list != [] {
      CoversParent(rows, list[1..], y);
      if list[0] == y && Under(rows, rows[y].parent.value, y) {
        UnderIsNewer(rows, rows[y].parent.value, y);
      }
    }
  }

  lemma {:induction false} CoversOnlyItself(rows: Rows, list: seq<Id>, y: Id)
    requires forall x :: x in list && x != y ==> !Under(rows, y, x)
    ensures Covers(rows, list, y) == Count(list, y)
  {
    if list != [] { CoversOnlyItself(rows, list[1..], y); }
  }

  lemma {:induction false} CountDistinct(s: seq<Id>, y: Id)
    requires Distinct(s)
    ensures Count(s, y) == if y in s then 1 else 0
  {
    if s != [] { CountDistinct(s[1..], y); }
  }

  lemma {:induction false} RepliesCount(order: seq<Id>, rows: Rows, p: Id, y: Id)
    requires Distinct(order)
    ensures Count(RepliesTo(order, rows, p), y) == if y in RepliesTo(order, rows, p) then 1 else 0
  {
    if order != [] {
      RepliesMembers(order[1..], rows, p);
      RepliesCount(order[1..], rows, p, y);
      var first := if order[0] in rows && rows[order[0]].parent == Some(p) then [order[0]] else [];
      CountConcat(first, RepliesTo(order[1..], rows, p), y);
    }
  }

  lemma {:induction false} TopsCount(order: seq<Id>, rows: Rows, y: Id)
    requires Distinct(order)
    ensures Count(Tops(order, rows), y) == if y in Tops(order, rows) then 1 else 0
  {
    if order != [] {
      TopsMembers(order[1..], rows);
      TopsCount(order[1..], rows, y);
      CountConcat(if IsTop(rows, order[0]) then [order[0]] else [], Tops(order[1..], rows), y);
    }
  }

  /** Below a comment, everything but itself is below exactly one of its replies. */
  lemma {:induction false} RepliesCover(order: seq<Id>, rows: Rows, bound: nat, x: Id, y: Id)
    requires Reads(order, rows) && Bounded(rows, bound)
    ensures Covers(rows, RepliesTo(order, rows, x), y) == if y != x && Under(rows, y, x) then 1 else 0
    decreases y
  {
    var kids := RepliesTo(order, rows, x);
    RepliesMembers(order, rows, x);
    if y in rows && rows[y].parent.Some? {
      CoversParent(rows, kids, y);
      RepliesCover(order, rows, bound, x, rows[y].parent.value);
      RepliesCount(order, rows, x, y);
      if y == x && Under(rows, rows[y].parent.value, x) { UnderIsNewer(rows, rows[y].parent.value, x); }
    } else {
      CoversOnlyItself(rows, kids, y);
      RepliesCount(order, rows, x, y);
    }
  }

  lemma {:induction false} ShownCounts(order: seq<Id>, rows: Rows, bound: nat, above: int, list: seq<Id>, y: Id)
    requires Reads(order, rows) && Bounded(rows, bound) && above <= bound
    requires forall x :: x in list ==> above < x < bound
    ensures Count(Shown(order, rows, bound, above, list), y) == Covers(rows, list, y)
    decreases bound - above, |list|
  {
    if list != [] {
      var x := list[0];
      RepliesMembers(order, rows, x);
      assert x in list && forall z :: z in list[1..] ==> z in list;
      var kids := Shown(order, rows, bound, x, RepliesTo(order, rows, x));
      var rest := Shown(order, rows, bound, above, list[1..]);
      CountConcat([x] + kids, rest, y);
      CountConcat([x], kids, y);
      ShownCounts(order, rows, bound, x, RepliesTo(order, rows, x), y);
      ShownCounts(order, rows, bound, above, list[1..], y);
      RepliesCover(order, rows, bound, x, y);
    }
  }

  lemma {:induction false} TopsCover(order: seq<Id>, rows: Rows, bound: nat, y: Id)
    requires Reads(order, rows) && Bounded(rows, bound) && y in rows
    ensures Covers(rows, Tops(order, rows), y) == 1
    decreases y
  {
    TopsMembers(order, rows);
    TopsCount(order, rows, y);
    if rows[y].parent.Some? && rows[y].parent.value in rows {
      CoversParent(rows, Tops(order, rows), y);
      TopsCover(order, rows, bound, rows[y].parent.value);
    } else {
      forall x | x in Tops(order, rows) && x != y ensures !Under(rows, y, x) {
        if Under(rows, y, x) { OrphanUnder(rows, rows[y].parent.value, x); }
      }
      CoversOnlyItself(rows, Tops(order, rows), y);
    }
  }

  lemma OrphanUnder(rows: Rows, p: Id, x: Id)
    requires p !in rows && Under(rows, p, x)
    ensures p == x
  {
  }

  /** The tree shows every comment exactly once: none is lost, none repeated. */
  lemma TreeShowsEachOnce(order: seq<Id>, rows: Rows, bound: nat, y: Id)
    requires Reads(order, rows) && Bounded(rows, bound)
    ensures (forall x :: x in Tops(order, rows) ==> -1 < x < bound)
         && Count(Shown(order, rows, bound, -1, Tops(order, rows)), y) == if y in rows then 1 else 0
  {
    TopsMembers(order, rows);
    ShownCounts(order, rows, bound, -1, Tops(order, rows), y);
    if y in rows {
      TopsCover(order, rows, bound, y);
    } else {
      forall x | x in Tops(order, rows) && x != y ensures !Under(rows, y, x) {}
      CoversOnlyItself(rows, Tops(order, rows), y);
      TopsCount(order, rows, y);
    }
  }
}
