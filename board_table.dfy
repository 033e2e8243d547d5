/** The Board table: queries, the gap-closing update, and ordering by position. */
module BoardTable {
  import opened Types
  import opened JsArray
  import Ordering

  /** `(x) => x.id === id`. */
  function HasBoardId(id: Id): Board -> bool {
    (b: Board) => b.id == id
  }

  /** `where: { id, userId }`. */
  function OwnedBoard(id: Id, userId: Id): Board -> bool {
    (b: Board) => b.id == id && b.userId == userId
  }

  /** The primary key: no two rows share an id. */
  ghost predicate UniqueBoardIds(bs: seq<Board>) {
    forall i, j :: 0 <= i < j < |bs| ==> bs[i].id != bs[j].id
  }

  /** The `order` column of a list of rows. */
  function BoardOrders(bs: seq<Board>): seq<int> {
    seq(|bs|, i requires 0 <= i < |bs| => bs[i].order)
  }

  /** `findMany({ where: { userId } })`: one user's boards in storage order. */
  function BoardsOf(bs: seq<Board>, userId: Id): (r: seq<Board>)
    ensures forall b :: b in r <==> b in bs && b.userId == userId
  {
    if bs == [] then []
    else
      assert bs == [bs[0]] + bs[1..];
      (if bs[0].userId == userId then [bs[0]] else []) + BoardsOf(bs[1..], userId)
  }

  /** The filter keeps each of the user's boards as often as the table holds it, and no other. */
  lemma {:induction false} BoardsOfMultiset(bs: seq<Board>, userId: Id)
    ensures forall b :: multiset(BoardsOf(bs, userId))[b] == if b.userId == userId then multiset(bs)[b] else 0
  {
    if bs != [] {
      BoardsOfMultiset(bs[1..], userId);
      assert bs == [bs[0]] + bs[1..];
      var head := if bs[0].userId == userId then [bs[0]] else [];
      assert BoardsOf(bs, userId) == head + BoardsOf(bs[1..], userId);
      assert multiset(bs) == multiset{bs[0]} + multiset(bs[1..]);
    }
  }

  /** `updateMany({ where: { order: { gt: p } }, data: { order: { decrement: 1 } } })`, over
      every row of the table. */
  function DecrementBoards(bs: seq<Board>, p: int): (r: seq<Board>)
    ensures |r| == |bs|
    ensures forall i :: 0 <= i < |bs| ==>
      r[i] == if bs[i].order > p then bs[i].(order := bs[i].order - 1) else bs[i]
  {
    if bs == [] then []
    else [if bs[0].order > p then bs[0].(order := bs[0].order - 1) else bs[0]] + DecrementBoards(bs[1..], p)
  }

  /** The decrement changes orders only, so ids stay primary keys. */
  lemma DecrementBoardsUnique(bs: seq<Board>, p: int)
    requires UniqueBoardIds(bs)
    ensures UniqueBoardIds(DecrementBoards(bs, p))
  {
  }

  lemma BoardOrdersDecrement(bs: seq<Board>, p: int)
    ensures BoardOrders(DecrementBoards(bs, p)) == Ordering.CloseGap(BoardOrders(bs), p)
  {
  }

  lemma BoardOrdersRemoveAt(bs: seq<Board>, k: nat)
    requires k < |bs|
    ensures BoardOrders(RemoveAt(bs, k)) == RemoveAt(BoardOrders(bs), k)
  {
  }

  /** Ascending by `order`. */
  ghost predicate SortedByOrder(bs: seq<Board>) {
    forall i, j :: 0 <= i < j < |bs| ==> bs[i].order <= bs[j].order
  }

  /** A lower bound of every row of `rest` and of `b` bounds every row of a permutation of them. */
  lemma BoundedByMembers(x: int, tail: seq<Board>, rest: seq<Board>, b: Board)
    requires multiset(tail) == multiset(rest) + multiset{b}
    requires x <= b.order && forall k :: 0 <= k < |rest| ==> x <= rest[k].order
    ensures forall j :: 0 <= j < |tail| ==> x <= tail[j].order
  {
    forall j | 0 <= j < |tail| ensures x <= tail[j].order {
      assert tail[j] in multiset(tail);
      if tail[j] != b {
        assert tail[j] in multiset(rest);
        var k :| 0 <= k < |rest| && rest[k] == tail[j];
      }
    }
  }

  /** The tail of a sorted list is sorted and bounded below by its head. */
  lemma SortedTail(bs: seq<Board>)
    requires SortedByOrder(bs) && bs != []
    ensures SortedByOrder(bs[1..])
    ensures forall k :: 0 <= k < |bs[1..]| ==> bs[0].order <= bs[1..][k].order
  {
    forall k | 0 <= k < |bs[1..]| ensures bs[0].order <= bs[1..][k].order {
      assert bs[1..][k] == bs[k + 1];
    }
    forall i, j | 0 <= i < j < |bs[1..]| ensures bs[1..][i].order <= bs[1..][j].order {
      assert bs[1..][i] == bs[i + 1] && bs[1..][j] == bs[j + 1];
    }
  }

  /** A row no larger than every row of a sorted list can go in front of it. */
  lemma ConsSorted(x: Board, tail: seq<Board>)
    requires SortedByOrder(tail)
    requires forall j :: 0 <= j < |tail| ==> x.order <= tail[j].order
    ensures SortedByOrder([x] + tail)
  {
    forall i, j | 0 <= i < j < |[x] + tail| ensures ([x] + tail)[i].order <= ([x] + tail)[j].order {
      assert ([x] + tail)[j] == tail[j - 1];
      if 0 < i {
        assert ([x] + tail)[i] == tail[i - 1];
      }
    }
  }

  /** Inserts `b` into a sorted list before the first row with a larger order. */
  function InsertByOrder(b: Board, bs: seq<Board>): (r: seq<Board>)
    requires SortedByOrder(bs)
    ensures SortedByOrder(r)
    ensures multiset(r) == multiset(bs) + multiset{b}
    ensures |r| == |bs| + 1
  {
    if bs == [] then [b]
    else if b.order <= bs[0].order then
      ConsSorted(b, bs);
      [b] + bs
    else
      SortedTail(bs);
      var tail := InsertByOrder(b, bs[1..]);
      assert bs == [bs[0]] + bs[1..];
      BoundedByMembers(bs[0].order, tail, bs[1..], b);
      ConsSorted(bs[0], tail);
      [bs[0]] + tail
  }

  /** `orderBy: { order: "asc" }`, as an insertion sort. */
  function SortByOrder(bs: seq<Board>): (r: seq<Board>)
    ensures SortedByOrder(r)
    ensures multiset(r) == multiset(bs)
  {
    if bs == [] then []
    else
      assert bs == [bs[0]] + bs[1..];
      InsertByOrder(bs[0], SortByOrder(bs[1..]))
  }
}
